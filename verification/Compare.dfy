/** Comparing two benchmark reports: transitions and failure-class deltas of
    `compare_benchmark_reports`. */
module Compare {
  import opened Sequences
  import Text

  datatype TaskResult = TaskResult(id: string, category: string, passed: bool, failure: string)

  datatype Transition = Transition(id: string, category: string, before: string, after: string)

  datatype Comparison = Comparison(
    common: seq<string>,
    baselineOnly: seq<string>,
    candidateOnly: seq<string>,
    regressions: seq<Transition>,
    improvements: seq<Transition>,
    deltas: map<string, int>)

  // ----- indexing -----

  function Ids(results: seq<TaskResult>): seq<string> {
    if results == [] then [] else Ids(results[..|results| - 1]) + [results[|results| - 1].id]
  }

  function Index(results: seq<TaskResult>): map<string, TaskResult> {
    if results == [] then map[] else
      var r := results[|results| - 1];
      Index(results[..|results| - 1])[r.id := r]
  }

  /** `_index_results`: refuses a repeated task id. */
  method IndexResults(results: seq<TaskResult>) returns (r: Result<map<string, TaskResult>, string>)
    ensures r.Ok? <==> Distinct(Ids(results))
    ensures r.Ok? ==> r.value == Index(results)
    ensures r.Err? ==> r.error in Ids(results)
  {
    var indexed: map<string, TaskResult> := map[];
    for n := 0 to |results|
      invariant indexed == Index(results[..n]) && Distinct(Ids(results[..n]))
    {
      var result := results[n];
      IdsSnoc(results, n);
      IndexKeys(results[..n], result.id);
      if result.id in indexed {
        IdsPrefix(results, n);
        if Distinct(Ids(results)) { NotRepeated(results, n); }
        return Err(result.id);
      }
      indexed := indexed[result.id := result];
    }
    assert results[..|results|] == results;
    return Ok(indexed);
  }

  lemma IdsSnoc(results: seq<TaskResult>, n: nat)
    requires n < |results|
    ensures Ids(results[..n + 1]) == Ids(results[..n]) + [results[n].id]
    ensures Index(results[..n + 1]) == Index(results[..n])[results[n].id := results[n]]
  {
    assert results[..n + 1][..n] == results[..n];
  }

  lemma {:induction false} IndexKeys(results: seq<TaskResult>, id: string)
    ensures id in Index(results) <==> id in Ids(results)
    ensures id in Index(results) ==> Index(results)[id].id == id
  {
    if results != [] { IndexKeys(results[..|results| - 1], id); }
  }

  lemma {:induction false} IdsPrefix(results: seq<TaskResult>, n: nat)
    requires n <= |results|
    ensures Ids(results[..n]) <= Ids(results)
    decreases |results| - n
  {
    if n == |results| {
      assert results[..n] == results;
    } else {
      IdsSnoc(results, n);
      IdsPrefix(results, n + 1);
    }
  }

  lemma {:induction false} IdsLength(results: seq<TaskResult>)
    ensures |Ids(results)| == |results|
  {
    if results != [] { IdsLength(results[..|results| - 1]); }
  }

  lemma DistinctPrefix(xs: seq<string>, ys: seq<string>)
    requires xs <= ys && Distinct(ys)
    ensures Distinct(xs)
  {
    forall i, j | 0 <= i < j < |xs| ensures xs[i] != xs[j] {
      assert xs[i] == ys[i] && xs[j] == ys[j];
    }
  }

  lemma NotRepeated(results: seq<TaskResult>, n: nat)
    requires n < |results| && Distinct(Ids(results))
    ensures results[n].id !in Ids(results[..n])
  {
    IdsSnoc(results, n);
    IdsPrefix(results, n + 1);
    DistinctPrefix(Ids(results[..n + 1]), Ids(results));
    DistinctSnoc(Ids(results[..n]), results[n].id);
  }

  // ----- transitions -----

  function InBoth(a: seq<string>, b: seq<string>): seq<string> {
    Filter((x: string) => x in b, Text.SortedNames(a))
  }

  function OnlyFirst(a: seq<string>, b: seq<string>): seq<string> {
    Filter((x: string) => x !in b, Text.SortedNames(a))
  }

  /** Transitions from passed to not passed over the ids, in their order. */
  function Regressions(ids: seq<string>, before: map<string, TaskResult>,
                       after: map<string, TaskResult>): seq<Transition>
    requires forall i :: i in ids ==> i in before && i in after
  {
    if ids == [] then [] else
      var init, id := Regressions(ids[..|ids| - 1], before, after), ids[|ids| - 1];
      var b, a := before[id], after[id];
      if b.passed && !a.passed then init + [Transition(id, a.category, b.failure, a.failure)] else init
  }

  function Improvements(ids: seq<string>, before: map<string, TaskResult>,
                        after: map<string, TaskResult>): seq<Transition>
    requires forall i :: i in ids ==> i in before && i in after
  {
    if ids == [] then [] else
      var init, id := Improvements(ids[..|ids| - 1], before, after), ids[|ids| - 1];
      var b, a := before[id], after[id];
      if !b.passed && a.passed then init + [Transition(id, a.category, b.failure, a.failure)] else init
  }

  function TaskIds(transitions: seq<Transition>): seq<string> {
    if transitions == [] then [] else TaskIds(transitions[..|transitions| - 1]) + [transitions[|transitions| - 1].id]
  }

  // ----- failure classes -----

  function ClassOf(r: TaskResult): string {
    if r.failure == "" then "unclassified" else r.failure
  }

  /** `_failure_classes`, in order of occurrence. */
  function FailureClasses(results: seq<TaskResult>): seq<string> {
    if results == [] then [] else
      var init, r := FailureClasses(results[..|results| - 1]), results[|results| - 1];
      if r.passed then init else init + [ClassOf(r)]
  }

  /** `Counter[name]`. */
  function Count(names: seq<string>, name: string): nat {
    multiset(names)[name]
  }

  function Deltas(names: seq<string>, before: seq<string>, after: seq<string>): map<string, int> {
    map n | n in names :: Count(after, n) - Count(before, n)
  }

  /** The sum of a map's values over distinct keys. */
  function SumOver(keys: seq<string>, m: map<string, int>): int
    requires forall k :: k in keys ==> k in m
  {
    if keys == [] then 0 else m[keys[0]] + SumOver(keys[1..], m)
  }

  // ----- the comparison -----

  /** The loop over the common ids. */
  method FindTransitions(common: seq<string>, before: map<string, TaskResult>, after: map<string, TaskResult>)
    returns (regressions: seq<Transition>, improvements: seq<Transition>)
    requires forall i :: i in common ==> i in before && i in after
    ensures regressions == Regressions(common, before, after) && improvements == Improvements(common, before, after)
  {
    regressions, improvements := [], [];
    for n := 0 to |common|
      invariant regressions == Regressions(common[..n], before, after)
      invariant improvements == Improvements(common[..n], before, after)
    {
      assert common[..n + 1][..n] == common[..n];
      var id := common[n];
      var b, a := before[id], after[id];
      if b.passed && !a.passed {
        regressions := regressions + [Transition(id, a.category, b.failure, a.failure)];
      } else if !b.passed && a.passed {
        improvements := improvements + [Transition(id, a.category, b.failure, a.failure)];
      }
    }
    assert common[..|common|] == common;
  }

  /** `compare_benchmark_reports`, as far as tasks and failure classes go. */
  method CompareReports(baseline: seq<TaskResult>, candidate: seq<TaskResult>) returns (r: Result<Comparison, string>)
    ensures r.Ok? <==> Distinct(Ids(baseline)) && Distinct(Ids(candidate))
    ensures r.Ok? ==> r.value == Compared(baseline, candidate)
  {
    var before := IndexResults(baseline);
    if before.Err? {
      return Err(before.error);
    }
    var after := IndexResults(candidate);
    if after.Err? {
      return Err(after.error);
    }
    CommonIndexed(baseline, candidate);
    var common := InBoth(Ids(baseline), Ids(candidate));
    var regressions, improvements := FindTransitions(common, before.value, after.value);
    var failuresBefore, failuresAfter := FailureClasses(baseline), FailureClasses(candidate);
    var deltas := Deltas(Text.SortedNames(failuresBefore + failuresAfter), failuresBefore, failuresAfter);
    return Ok(Comparison(common, OnlyFirst(Ids(baseline), Ids(candidate)), OnlyFirst(Ids(candidate), Ids(baseline)),
                         regressions, improvements, deltas));
  }

  lemma CommonMembers(a: seq<string>, b: seq<string>)
    ensures forall x :: x in InBoth(a, b) <==> x in a && x in b
    ensures forall x :: x in OnlyFirst(a, b) <==> x in a && x !in b
  {
    Text.SortedNamesMembers(a);
    FilterMembers((x: string) => x in b, Text.SortedNames(a));
    FilterMembers((x: string) => x !in b, Text.SortedNames(a));
  }

  lemma CommonIndexed(baseline: seq<TaskResult>, candidate: seq<TaskResult>)
    ensures forall i :: i in InBoth(Ids(baseline), Ids(candidate)) ==> i in Index(baseline) && i in Index(candidate)
  {
    CommonMembers(Ids(baseline), Ids(candidate));
    forall i | i in InBoth(Ids(baseline), Ids(candidate)) ensures i in Index(baseline) && i in Index(candidate) {
      IndexKeys(baseline, i);
      IndexKeys(candidate, i);
    }
  }

  /** The whole comparison as a function of the two reports. */
  function Compared(baseline: seq<TaskResult>, candidate: seq<TaskResult>): Comparison {
    var common := InBoth(Ids(baseline), Ids(candidate));
    CommonIndexed(baseline, candidate);
    var fb, fc := FailureClasses(baseline), FailureClasses(candidate);
    Comparison(common,
               OnlyFirst(Ids(baseline), Ids(candidate)),
               OnlyFirst(Ids(candidate), Ids(baseline)),
               Regressions(common, Index(baseline), Index(candidate)),
               Improvements(common, Index(baseline), Index(candidate)),
               Deltas(Text.SortedNames(fb + fc), fb, fc))
  }

  // ----- swapping the reports -----

  lemma {:induction false} TransitionsSwap(ids: seq<string>, before: map<string, TaskResult>,
                                           after: map<string, TaskResult>)
    requires forall i :: i in ids ==> i in before && i in after
    ensures TaskIds(Regressions(ids, before, after)) == TaskIds(Improvements(ids, after, before))
  {
    if ids != [] {
      var init := ids[..|ids| - 1];
      TransitionsSwap(init, before, after);
      var r, i := Regressions(init, before, after), Improvements(init, after, before);
      var id := ids[|ids| - 1];
      var t := Transition(id, after[id].category, before[id].failure, after[id].failure);
      var u := Transition(id, before[id].category, after[id].failure, before[id].failure);
      assert (r + [t])[..|r|] == r && (i + [u])[..|i|] == i;
    }
  }

  /** Both filters keep the sorted order, so the common ids do not depend on which
      report comes first. */
  lemma CommonSymmetric(a: seq<string>, b: seq<string>)
    ensures InBoth(a, b) == InBoth(b, a)
  {
    var p, q := (x: string) => x in b, (x: string) => x in a;
    var x, y := InBoth(a, b), InBoth(b, a);
    Text.LeqIsOrder();
    CommonMembers(a, b);
    CommonMembers(b, a);
    FilterSort(Text.LEQ, p, Dedup(a));
    FilterSort(Text.LEQ, q, Dedup(b));
    var fa, fb := Filter(p, Dedup(a)), Filter(q, Dedup(b));
    FilterDistinct(p, Dedup(a));
    FilterDistinct(q, Dedup(b));
    FilterMembers(p, Dedup(a));
    FilterMembers(q, Dedup(b));
    DistinctSameMembers(fa, fb);
    SortIgnoresOrder(Text.LEQ, fa, fb);
  }

  /** Swapping the reports swaps the task ids of regressions and improvements, and
      the tasks only one of them has, and negates every delta. */
  lemma SwapReports(baseline: seq<TaskResult>, candidate: seq<TaskResult>)
    ensures var c, d := Compared(baseline, candidate), Compared(candidate, baseline);
            && d.common == c.common && d.baselineOnly == c.candidateOnly && d.candidateOnly == c.baselineOnly
            && TaskIds(d.regressions) == TaskIds(c.improvements) && TaskIds(d.improvements) == TaskIds(c.regressions)
            && d.deltas.Keys == c.deltas.Keys
            && forall n :: n in c.deltas ==> d.deltas[n] == -c.deltas[n]
  {
    var common := InBoth(Ids(baseline), Ids(candidate));
    CommonSymmetric(Ids(baseline), Ids(candidate));
    CommonIndexed(baseline, candidate);
    TransitionsSwap(common, Index(baseline), Index(candidate));
    TransitionsSwap(common, Index(candidate), Index(baseline));
    var fb, fc := FailureClasses(baseline), FailureClasses(candidate);
    Text.SortedNamesUnique(fb + fc, fc + fb);
  }

  // ----- counting -----

  /** How many of the ids passed. */
  function Passed(ids: seq<string>, results: map<string, TaskResult>): nat
    requires forall i :: i in ids ==> i in results
  {
    if ids == [] then 0 else
      Passed(ids[..|ids| - 1], results) + (if results[ids[|ids| - 1]].passed then 1 else 0)
  }

  /** Improvements minus regressions is the change in passed tasks. */
  lemma {:induction false} NetTransitions(ids: seq<string>, before: map<string, TaskResult>,
                                          after: map<string, TaskResult>)
    requires forall i :: i in ids ==> i in before && i in after
    ensures |Improvements(ids, before, after)| - |Regressions(ids, before, after)| ==
        Passed(ids, after) - Passed(ids, before)
  {
    if ids != [] {
      NetTransitions(ids[..|ids| - 1], before, after);
    }
  }

  lemma NetChange(baseline: seq<TaskResult>, candidate: seq<TaskResult>)
    ensures var c := Compared(baseline, candidate);
            && (forall i :: i in c.common ==> i in Index(baseline) && i in Index(candidate))
            && |c.improvements| - |c.regressions| ==
                Passed(c.common, Index(candidate)) - Passed(c.common, Index(baseline))
  {
    CommonIndexed(baseline, candidate);
    NetTransitions(Compared(baseline, candidate).common, Index(baseline), Index(candidate));
  }

  lemma {:induction false} SumOfDeltas(keys: seq<string>, before: seq<string>, after: seq<string>, names: seq<string>)
    requires Distinct(keys) && forall k :: k in keys ==> k in names
    ensures SumOver(keys, Deltas(names, before, after)) == Occurrences(keys, after) - Occurrences(keys, before)
  {
    if keys != [] {
      assert keys[0] in keys;
      SumOfDeltas(keys[1..], before, after, names);
    }
  }

  /** How often the keys occur among the names altogether. */
  function Occurrences(keys: seq<string>, names: seq<string>): nat {
    if keys == [] then 0 else Count(names, keys[0]) + Occurrences(keys[1..], names)
  }

  lemma {:induction false} OccurrencesSnoc(keys: seq<string>, names: seq<string>, n: string)
    requires Distinct(keys)
    ensures Occurrences(keys, names + [n]) == Occurrences(keys, names) + (if n in keys then 1 else 0)
  {
    if keys != [] {
      assert multiset(names + [n]) == multiset(names) + multiset{n};
      OccurrencesSnoc(keys[1..], names, n);
      assert keys == [keys[0]] + keys[1..];
      assert keys[0] !in keys[1..];
    }
  }

  /** Distinct keys that cover the names count every one of them once. */
  lemma {:induction false} OccurrencesCover(keys: seq<string>, names: seq<string>)
    requires Distinct(keys) && forall n :: n in names ==> n in keys
    ensures Occurrences(keys, names) == |names|
  {
    if names == [] {
      OccurrencesNone(keys);
    } else {
      var init, n := names[..|names| - 1], names[|names| - 1];
      assert names == init + [n];
      OccurrencesCover(keys, init);
      OccurrencesSnoc(keys, init, n);
    }
  }

  lemma {:induction false} OccurrencesNone(keys: seq<string>)
    ensures Occurrences(keys, []) == 0
  {
    if keys != [] { OccurrencesNone(keys[1..]); }
  }

  /** One failure class for every result that did not pass. */
  lemma {:induction false} FailuresPlusPassed(results: seq<TaskResult>)
    requires Distinct(Ids(results))
    ensures forall i :: i in Ids(results) ==> i in Index(results)
    ensures |FailureClasses(results)| + Passed(Ids(results), Index(results)) == |results|
  {
    forall i | i in Ids(results) ensures i in Index(results) { IndexKeys(results, i); }
    if results != [] {
      var init, r := results[..|results| - 1], results[|results| - 1];
      assert Ids(results) == Ids(init) + [r.id];
      DistinctSnoc(Ids(init), r.id);
      FailuresPlusPassed(init);
      PassedElsewhere(Ids(init), Index(init), r);
      assert Ids(results)[..|Ids(results)| - 1] == Ids(init);
    }
  }

  lemma {:induction false} PassedElsewhere(ids: seq<string>, results: map<string, TaskResult>, r: TaskResult)
    requires r.id !in ids && forall i :: i in ids ==> i in results
    ensures Passed(ids, results[r.id := r]) == Passed(ids, results)
  {
    if ids != [] { PassedElsewhere(ids[..|ids| - 1], results, r); }
  }

  /** The passed ids, in the order of the sequence. */
  function PassedIn(results: map<string, TaskResult>): string -> bool {
    (i: string) => i in results && results[i].passed
  }

  lemma {:induction false} PassedIsFilter(ids: seq<string>, results: map<string, TaskResult>)
    requires forall i :: i in ids ==> i in results
    ensures Passed(ids, results) == |Filter(PassedIn(results), ids)|
  {
    if ids != [] {
      var init, i := ids[..|ids| - 1], ids[|ids| - 1];
      assert ids == init + [i];
      PassedIsFilter(init, results);
      FilterSnoc(PassedIn(results), init, i);
    }
  }

  lemma PassedPermutes(ids: seq<string>, ids': seq<string>, results: map<string, TaskResult>)
    requires multiset(ids) == multiset(ids') && forall i :: i in ids ==> i in results
    ensures (forall i :: i in ids' ==> i in results) && Passed(ids, results) == Passed(ids', results)
  {
    SameMultiset(ids, ids');
    PassedIsFilter(ids, results);
    PassedIsFilter(ids', results);
    FilterPermutes(PassedIn(results), ids, ids');
    SameMultiset(Filter(PassedIn(results), ids), Filter(PassedIn(results), ids'));
  }

  /** For reports over the same tasks the failure-class deltas sum to regressions
      minus improvements. */
  lemma DeltasBalance(baseline: seq<TaskResult>, candidate: seq<TaskResult>)
    requires Distinct(Ids(baseline)) && Distinct(Ids(candidate))
    requires forall i :: i in Ids(baseline) <==> i in Ids(candidate)
    ensures var c := Compared(baseline, candidate);
            var names := Text.SortedNames(FailureClasses(baseline) + FailureClasses(candidate));
            && c.baselineOnly == [] && c.candidateOnly == [] && |c.common| == |baseline| == |candidate|
            && (forall n :: n in names <==> n in c.deltas)
            && Distinct(names) && SumOver(names, c.deltas) == |c.regressions| - |c.improvements|
  {
    var c := Compared(baseline, candidate);
    var fb, fc := FailureClasses(baseline), FailureClasses(candidate);
    var names := Text.SortedNames(fb + fc);
    Text.SortedNamesMembers(fb + fc);
    SumOfDeltas(names, fb, fc, names);
    OccurrencesCover(names, fb);
    OccurrencesCover(names, fc);
    CommonIsAll(Ids(baseline), Ids(candidate));
    CommonIsAll(Ids(candidate), Ids(baseline));
    CommonSymmetric(Ids(baseline), Ids(candidate));
    FailuresPlusPassed(baseline);
    FailuresPlusPassed(candidate);
    PassedPermutes(Ids(baseline), c.common, Index(baseline));
    PassedPermutes(Ids(candidate), c.common, Index(candidate));
    IdsLength(baseline);
    IdsLength(candidate);
    SameMultiset(c.common, Ids(baseline));
    SameMultiset(c.common, Ids(candidate));
    NetChange(baseline, candidate);
  }

  lemma CommonIsAll(a: seq<string>, b: seq<string>)
    requires Distinct(a) && forall i :: i in a <==> i in b
    ensures multiset(InBoth(a, b)) == multiset(a) && OnlyFirst(a, b) == []
  {
    Text.SortedNamesMembers(a);
    CommonMembers(a, b);
    FilterAll((x: string) => x in b, Text.SortedNames(a));
    DistinctSameMembers(Text.SortedNames(a), a);
    FilterNone((x: string) => x !in b, Text.SortedNames(a));
  }

  // ----- what is listed -----

  lemma {:induction false} TransitionsListed(ids: seq<string>, before: map<string, TaskResult>,
                                             after: map<string, TaskResult>, t: Transition)
    requires forall i :: i in ids ==> i in before && i in after
    ensures t in Regressions(ids, before, after) <==>
              t.id in ids && before[t.id].passed && !after[t.id].passed
              && t == Transition(t.id, after[t.id].category, before[t.id].failure, after[t.id].failure)
    ensures t in Improvements(ids, before, after) <==>
              t.id in ids && !before[t.id].passed && after[t.id].passed
              && t == Transition(t.id, after[t.id].category, before[t.id].failure, after[t.id].failure)
  {
    if ids != [] {
      var init := ids[..|ids| - 1];
      assert ids == init + [ids[|ids| - 1]];
      TransitionsListed(init, before, after, t);
    }
  }

  lemma {:induction false} IndexHolds(results: seq<TaskResult>, r: TaskResult)
    requires Distinct(Ids(results))
    ensures r in results <==> r.id in Index(results) && Index(results)[r.id] == r
  {
    IndexKeys(results, r.id);
    if results != [] {
      var init, last := results[..|results| - 1], results[|results| - 1];
      assert results == init + [last];
      assert Ids(results) == Ids(init) + [last.id];
      DistinctSnoc(Ids(init), last.id);
      IndexHolds(init, r);
      IndexKeys(init, r.id);
    }
  }

  /** A regression is a task that passed in the baseline and not in the candidate, an
      improvement the other way round; each is listed with the candidate's category
      and the two failures in their places, and nothing else is listed. */
  lemma TransitionsExactly(baseline: seq<TaskResult>, candidate: seq<TaskResult>, t: Transition)
    requires Distinct(Ids(baseline)) && Distinct(Ids(candidate))
    ensures t in Compared(baseline, candidate).regressions <==>
              exists b, c :: b in baseline && c in candidate && b.id == c.id == t.id && b.passed && !c.passed
                && t.category == c.category && t.before == b.failure && t.after == c.failure
    ensures t in Compared(baseline, candidate).improvements <==>
              exists b, c :: b in baseline && c in candidate && b.id == c.id == t.id && !b.passed && c.passed
                && t.category == c.category && t.before == b.failure && t.after == c.failure
  {
    var common, before, after := InBoth(Ids(baseline), Ids(candidate)), Index(baseline), Index(candidate);
    CommonIndexed(baseline, candidate);
    CommonMembers(Ids(baseline), Ids(candidate));
    TransitionsListed(common, before, after, t);
    forall b: TaskResult | b.id == t.id ensures b in baseline <==> t.id in before && before[t.id] == b
    {
      IndexHolds(baseline, b);
    }
    forall c: TaskResult | c.id == t.id ensures c in candidate <==> t.id in after && after[t.id] == c
    {
      IndexHolds(candidate, c);
    }
    IndexKeys(baseline, t.id);
    IndexKeys(candidate, t.id);
    if t.id in common {
      assert before[t.id] in baseline && after[t.id] in candidate;
    }
  }

  /** The ids are in dictionary order, each once. */
  ghost predicate InOrder(ids: seq<string>) {
    forall i, j :: 0 <= i < j < |ids| ==> Text.Precedes(ids[i], ids[j])
  }

  lemma SortedInOrder(ids: seq<string>)
    requires Sorted(Text.LEQ, ids) && Distinct(ids)
    ensures InOrder(ids)
  {
    forall i, j | 0 <= i < j < |ids| ensures Text.Precedes(ids[i], ids[j]) {
      assert Text.LEQ(ids[i], ids[j]);
      Text.LeqMeaning(ids[i], ids[j]);
    }
  }

  lemma FilteredNames(p: string -> bool, a: seq<string>)
    ensures InOrder(Filter(p, Text.SortedNames(a)))
  {
    Text.LeqIsOrder();
    FilterSort(Text.LEQ, p, Dedup(a));
    SortSorts(Text.LEQ, Filter(p, Dedup(a)));
    Text.SortedNamesMembers(a);
    FilterDistinct(p, Text.SortedNames(a));
    SortedInOrder(Filter(p, Text.SortedNames(a)));
  }

  /** Which tasks both reports have, and which only one: each once, in order. */
  lemma TasksListed(baseline: seq<TaskResult>, candidate: seq<TaskResult>)
    ensures var c := Compared(baseline, candidate);
            && InOrder(c.common) && InOrder(c.baselineOnly) && InOrder(c.candidateOnly)
            && (forall id :: id in c.common <==> id in Ids(baseline) && id in Ids(candidate))
            && (forall id :: id in c.baselineOnly <==> id in Ids(baseline) && id !in Ids(candidate))
            && (forall id :: id in c.candidateOnly <==> id in Ids(candidate) && id !in Ids(baseline))
  {
    CommonMembers(Ids(baseline), Ids(candidate));
    CommonMembers(Ids(candidate), Ids(baseline));
    FilteredNames((x: string) => x in Ids(candidate), Ids(baseline));
    FilteredNames((x: string) => x !in Ids(candidate), Ids(baseline));
    FilteredNames((x: string) => x !in Ids(baseline), Ids(candidate));
  }

  /** The positions of results that did not pass and have that failure, where no
      failure counts as "unclassified". */
  function FailingAt(results: seq<TaskResult>, name: string): set<nat> {
    set i: nat | i < |results| && !results[i].passed
      && name == (if results[i].failure == "" then "unclassified" else results[i].failure)
  }

  lemma FailingSnoc(init: seq<TaskResult>, r: TaskResult, name: string)
    ensures FailingAt(init + [r], name) ==
            FailingAt(init, name) + if !r.passed && ClassOf(r) == name then {|init|} else {}
    ensures |init| !in FailingAt(init, name)
  {}

  lemma CountSnoc(names: seq<string>, n: string, name: string)
    ensures Count(names + [n], name) == Count(names, name) + if n == name then 1 else 0
  {}

  lemma {:induction false} ClassCount(results: seq<TaskResult>, name: string)
    ensures Count(FailureClasses(results), name) == |FailingAt(results, name)|
  {
    if results != [] {
      var init, r := results[..|results| - 1], results[|results| - 1];
      assert results == init + [r];
      ClassCount(init, name);
      FailingSnoc(init, r, name);
      CountSnoc(FailureClasses(init), ClassOf(r), name);
    }
  }

  lemma ClassOccurs(results: seq<TaskResult>, name: string)
    ensures name in FailureClasses(results) <==> FailingAt(results, name) != {}
  {
    ClassCount(results, name);
    DistinctCount(FailureClasses(results), name);
  }

  /** The failure-class deltas: for each class some failing result has, how many more
      results of the candidate fail with it. */
  lemma DeltasExactly(baseline: seq<TaskResult>, candidate: seq<TaskResult>, name: string)
    ensures var deltas := Compared(baseline, candidate).deltas;
            var before, after := FailingAt(baseline, name), FailingAt(candidate, name);
            && (name in deltas <==> before != {} || after != {})
            && (name in deltas ==> deltas[name] == |after| - |before|)
  {
    ClassCount(baseline, name);
    ClassCount(candidate, name);
    ClassOccurs(baseline, name);
    ClassOccurs(candidate, name);
    Text.SortedNamesMembers(FailureClasses(baseline) + FailureClasses(candidate));
  }
}
