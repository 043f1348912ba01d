/** The macro-averaged F1 score of the router experiment, over exact reals. */
module MacroF1 {
  import opened Sequences
  import Text

  /** `zip(expected, actual)`. */
  function Zip(expected: seq<string>, actual: seq<string>): seq<(string, string)> {
    if expected == [] || actual == [] then [] else [(expected[0], actual[0])] + Zip(expected[1..], actual[1..])
  }

  function TruePositives(pairs: seq<(string, string)>, name: string): nat {
    if pairs == [] then 0 else
      (if pairs[0].0 == name && pairs[0].1 == name then 1 else 0) + TruePositives(pairs[1..], name)
  }

  function FalsePositives(pairs: seq<(string, string)>, name: string): nat {
    if pairs == [] then 0 else
      (if pairs[0].0 != name && pairs[0].1 == name then 1 else 0) + FalsePositives(pairs[1..], name)
  }

  function FalseNegatives(pairs: seq<(string, string)>, name: string): nat {
    if pairs == [] then 0 else
      (if pairs[0].0 == name && pairs[0].1 != name then 1 else 0) + FalseNegatives(pairs[1..], name)
  }

  /** hits / (hits + misses), or 0 without either: precision and recall. */
  function Ratio(hits: nat, misses: nat): real {
    if hits + misses == 0 then 0.0 else hits as real / (hits + misses) as real
  }

  function HarmonicMean(p: real, r: real): real {
    if p + r == 0.0 then 0.0 else 2.0 * p * r / (p + r)
  }

  function F1(pairs: seq<(string, string)>, name: string): real {
    var tp := TruePositives(pairs, name);
    HarmonicMean(Ratio(tp, FalsePositives(pairs, name)), Ratio(tp, FalseNegatives(pairs, name)))
  }

  function F1Sum(pairs: seq<(string, string)>, labels: seq<string>): real {
    if labels == [] then 0.0 else F1(pairs, labels[0]) + F1Sum(pairs, labels[1..])
  }

  function Labels(expected: seq<string>, actual: seq<string>): seq<string> {
    Text.SortedNames(expected + actual)
  }

  function Score(expected: seq<string>, actual: seq<string>): real {
    var labels := Labels(expected, actual);
    if labels == [] then 0.0 else F1Sum(Zip(expected, actual), labels) / |labels| as real
  }

  lemma {:induction false} F1SumSnoc(pairs: seq<(string, string)>, labels: seq<string>, name: string)
    ensures F1Sum(pairs, labels + [name]) == F1Sum(pairs, labels) + F1(pairs, name)
  {
    if labels == [] {
      assert labels + [name] == [name] && [name][1..] == [];
    } else {
      assert (labels + [name])[1..] == labels[1..] + [name];
      F1SumSnoc(pairs, labels[1..], name);
    }
  }

  /** The three sums over the pairs for one label. */
  method CountLabel(pairs: seq<(string, string)>, name: string) returns (tp: nat, fp: nat, fn: nat)
    ensures tp == TruePositives(pairs, name) && fp == FalsePositives(pairs, name) && fn == FalseNegatives(pairs, name)
  {
    tp, fp, fn := 0, 0, 0;
    assert pairs[0..] == pairs;
    for k := 0 to |pairs|
      invariant tp + TruePositives(pairs[k..], name) == TruePositives(pairs, name)
      invariant fp + FalsePositives(pairs[k..], name) == FalsePositives(pairs, name)
      invariant fn + FalseNegatives(pairs[k..], name) == FalseNegatives(pairs, name)
    {
      assert pairs[k..][1..] == pairs[k + 1..];
      var e, a := pairs[k].0, pairs[k].1;
      if e == name && a == name { tp := tp + 1; }
      if e != name && a == name { fp := fp + 1; }
      if e == name && a != name { fn := fn + 1; }
    }
    assert pairs[|pairs|..] == [];
  }

  /** `_macro_f1`, which counts afresh for every label. */
  method ComputeMacroF1(expected: seq<string>, actual: seq<string>) returns (score: real)
    ensures score == Score(expected, actual)
  {
    var labels := Labels(expected, actual);
    var pairs := Zip(expected, actual);
    var sum := 0.0;
    for n := 0 to |labels|
      invariant sum == F1Sum(pairs, labels[..n])
    {
      assert labels[..n + 1] == labels[..n] + [labels[n]];
      F1SumSnoc(pairs, labels[..n], labels[n]);
      var tp, fp, fn := CountLabel(pairs, labels[n]);
      var precision := Ratio(tp, fp);
      var recall := Ratio(tp, fn);
      sum := sum + HarmonicMean(precision, recall);
    }
    assert labels[..|labels|] == labels;
    score := if labels == [] then 0.0 else sum / |labels| as real;
  }

  // ----- one label -----

  /** A proper fraction lies between 0 and 1 and meets the ends only there. */
  lemma Fraction(a: real, b: real)
    requires 0.0 <= a <= b && b > 0.0
    ensures 0.0 <= a / b <= 1.0
    ensures a / b == 1.0 <==> a == b
    ensures a / b == 0.0 <==> a == 0.0
  {
    var q := a / b;
    assert q * b == a;
    assert q < 0.0 ==> q * b < 0.0;
    assert q > 1.0 ==> (q - 1.0) * b > 0.0;
    assert (q - 1.0) * b == q * b - b;
  }

  lemma RatioRange(hits: nat, misses: nat)
    ensures 0.0 <= Ratio(hits, misses) <= 1.0
    ensures Ratio(hits, misses) == 0.0 <==> hits == 0
    ensures Ratio(hits, misses) == 1.0 <==> hits > 0 && misses == 0
  {
    if hits + misses > 0 {
      Fraction(hits as real, (hits + misses) as real);
    }
  }

  lemma ZeroFactor(x: real, y: real)
    requires x >= 0.0 && y >= 0.0
    ensures x * y >= 0.0 && (x * y == 0.0 <==> x == 0.0 || y == 0.0)
  {}

  lemma HarmonicRange(p: real, r: real)
    requires 0.0 <= p <= 1.0 && 0.0 <= r <= 1.0
    ensures 0.0 <= HarmonicMean(p, r) <= 1.0
    ensures HarmonicMean(p, r) == 1.0 <==> p == 1.0 && r == 1.0
    ensures HarmonicMean(p, r) == HarmonicMean(r, p)
  {
    ZeroFactor(p, r);
    ZeroFactor(p, 1.0 - r);
    ZeroFactor(r, 1.0 - p);
    var s, t := p + r, 2.0 * p * r;
    assert t == 2.0 * r * p && t == 2.0 * (p * r);
    assert s - t == p * (1.0 - r) + r * (1.0 - p);
    if s > 0.0 {
      Fraction(t, s);
    }
  }

  lemma F1Range(pairs: seq<(string, string)>, name: string)
    ensures 0.0 <= F1(pairs, name) <= 1.0
    ensures F1(pairs, name) == 1.0 <==>
            TruePositives(pairs, name) > 0 && FalsePositives(pairs, name) == 0 && FalseNegatives(pairs, name) == 0
  {
    var tp, fp, fn := TruePositives(pairs, name), FalsePositives(pairs, name), FalseNegatives(pairs, name);
    RatioRange(tp, fp);
    RatioRange(tp, fn);
    HarmonicRange(Ratio(tp, fp), Ratio(tp, fn));
  }

  // ----- the mean -----

  lemma {:induction false} SumRange(pairs: seq<(string, string)>, labels: seq<string>)
    ensures 0.0 <= F1Sum(pairs, labels) <= |labels| as real
    ensures F1Sum(pairs, labels) == |labels| as real <==> forall l :: l in labels ==> F1(pairs, l) == 1.0
  {
    if labels != [] {
      F1Range(pairs, labels[0]);
      SumRange(pairs, labels[1..]);
      assert labels == [labels[0]] + labels[1..];
      assert labels[0] in labels;
    }
  }

  /** The score lies between 0 and 1, whatever the lists. */
  lemma ScoreRange(expected: seq<string>, actual: seq<string>)
    ensures 0.0 <= Score(expected, actual) <= 1.0
    ensures Score(expected, actual) == 1.0 <==>
            Labels(expected, actual) != [] && forall l :: l in Labels(expected, actual) ==>
                F1(Zip(expected, actual), l) == 1.0
  {
    var labels, pairs := Labels(expected, actual), Zip(expected, actual);
    SumRange(pairs, labels);
    if labels != [] {
      Fraction(F1Sum(pairs, labels), |labels| as real);
    }
  }

  lemma {:induction false} SwapCounts(expected: seq<string>, actual: seq<string>, name: string)
    ensures TruePositives(Zip(actual, expected), name) == TruePositives(Zip(expected, actual), name)
    ensures FalsePositives(Zip(actual, expected), name) == FalseNegatives(Zip(expected, actual), name)
    ensures FalseNegatives(Zip(actual, expected), name) == FalsePositives(Zip(expected, actual), name)
  {
    if expected != [] && actual != [] {
      SwapCounts(expected[1..], actual[1..], name);
      assert Zip(actual, expected)[1..] == Zip(actual[1..], expected[1..]);
      assert Zip(expected, actual)[1..] == Zip(expected[1..], actual[1..]);
    }
  }

  lemma {:induction false} SwapSum(expected: seq<string>, actual: seq<string>, labels: seq<string>)
    ensures F1Sum(Zip(actual, expected), labels) == F1Sum(Zip(expected, actual), labels)
  {
    if labels != [] {
      var pairs, name := Zip(expected, actual), labels[0];
      var tp, fp, fn := TruePositives(pairs, name), FalsePositives(pairs, name), FalseNegatives(pairs, name);
      SwapCounts(expected, actual, name);
      RatioRange(tp, fp);
      RatioRange(tp, fn);
      HarmonicRange(Ratio(tp, fp), Ratio(tp, fn));
      SwapSum(expected, actual, labels[1..]);
    }
  }

  /** Precision and recall trade places, so the score is symmetric. */
  lemma ScoreIsSymmetric(expected: seq<string>, actual: seq<string>)
    ensures Score(actual, expected) == Score(expected, actual)
  {
    Text.SortedNamesUnique(expected + actual, actual + expected);
    SwapSum(expected, actual, Labels(expected, actual));
  }

  /** The lists agree wherever both have an entry. */
  predicate AgreeWherePaired(expected: seq<string>, actual: seq<string>) {
    forall i :: 0 <= i < |expected| && i < |actual| ==> expected[i] == actual[i]
  }

  /** No false counts at all means the paired entries agree. */
  lemma {:induction false} NoMistakes(expected: seq<string>, actual: seq<string>)
    ensures (forall l :: l in expected || l in actual ==>
               FalsePositives(Zip(expected, actual), l) == 0 && FalseNegatives(Zip(expected, actual), l) == 0)
            <==> AgreeWherePaired(expected, actual)
  {
    if expected != [] && actual != [] {
      var e, a := expected[1..], actual[1..];
      var pairs := Zip(expected, actual);
      assert pairs[1..] == Zip(e, a);
      NoMistakes(e, a);
      assert expected == [expected[0]] + e && actual == [actual[0]] + a;
      if AgreeWherePaired(expected, actual) {
        forall i | 0 <= i < |e| && i < |a| ensures e[i] == a[i] {
          assert expected[i + 1] == actual[i + 1];
        }
        forall l | l in expected || l in actual ensures FalsePositives(pairs, l) == 0 && FalseNegatives(pairs, l) == 0 {
          NoMistakesAt(e, a, l);
        }
      } else {
        var i :| 0 <= i < |expected| && i < |actual| && expected[i] != actual[i];
        if i == 0 {
          assert expected[0] in expected && FalseNegatives(pairs, expected[0]) > 0;
        } else {
          assert e[i - 1] != a[i - 1];
          var l :| (l in e || l in a) && !(FalsePositives(Zip(e, a), l) == 0 && FalseNegatives(Zip(e, a), l) == 0);
          assert l in expected || l in actual;
        }
      }
    }
  }

  lemma {:induction false} NoMistakesAt(expected: seq<string>, actual: seq<string>, l: string)
    requires AgreeWherePaired(expected, actual)
    ensures FalsePositives(Zip(expected, actual), l) == 0 && FalseNegatives(Zip(expected, actual), l) == 0
  {
    if expected != [] && actual != [] {
      assert Zip(expected, actual)[1..] == Zip(expected[1..], actual[1..]);
      NoMistakesAt(expected[1..], actual[1..], l);
    }
  }

  /** The label stands at the same place of both lists. */
  ghost predicate PairedAs(expected: seq<string>, actual: seq<string>, l: string) {
    exists i :: 0 <= i < |expected| && i < |actual| && expected[i] == l && actual[i] == l
  }

  lemma {:induction false} HitsArePairs(expected: seq<string>, actual: seq<string>, l: string)
    ensures TruePositives(Zip(expected, actual), l) > 0 <==> PairedAs(expected, actual, l)
  {
    if expected != [] && actual != [] {
      var e, a := expected[1..], actual[1..];
      assert Zip(expected, actual)[1..] == Zip(e, a);
      HitsArePairs(e, a, l);
      if PairedAs(e, a, l) {
        var i :| 0 <= i < |e| && i < |a| && e[i] == l && a[i] == l;
        assert expected[i + 1] == l && actual[i + 1] == l;
      }
      if i :| 0 <= i < |expected| && i < |actual| && expected[i] == l && actual[i] == l {
        if i > 0 { assert e[i - 1] == l && a[i - 1] == l; }
      }
    }
  }

  /** When a score is perfect, for lists of any lengths: there is a label, the lists
      agree where both have an entry, and no label is only in the longer one's tail. */
  lemma PerfectCondition(expected: seq<string>, actual: seq<string>)
    ensures Score(expected, actual) == 1.0 <==>
            && (expected != [] || actual != [])
            && AgreeWherePaired(expected, actual)
            && (forall l :: l in expected || l in actual ==> PairedAs(expected, actual, l))
  {
    ScoreRange(expected, actual);
    Text.SortedNamesMembers(expected + actual);
    NoMistakes(expected, actual);
    var labels, pairs := Labels(expected, actual), Zip(expected, actual);
    forall l
      ensures F1(pairs, l) == 1.0 <==>
              PairedAs(expected, actual, l) && FalsePositives(pairs, l) == 0 && FalseNegatives(pairs, l) == 0
    {
      F1Range(pairs, l);
      HitsArePairs(expected, actual, l);
    }
    assert labels == [] <==> expected == [] && actual == [] by {
      if expected != [] { assert expected[0] in labels; }
      if actual != [] { assert actual[0] in labels; }
      if labels != [] { assert labels[0] in labels; }
    }
  }

  /** The lists the experiment passes have one length; if they are not empty, a
      perfect score is equality. */
  lemma PerfectScore(expected: seq<string>, actual: seq<string>)
    requires |expected| == |actual| > 0
    ensures Score(expected, actual) == 1.0 <==> expected == actual
  {
    PerfectCondition(expected, actual);
    if expected == actual {
      forall l | l in expected || l in actual ensures PairedAs(expected, actual, l) {
        var i :| 0 <= i < |expected| && expected[i] == l;
        assert actual[i] == l;
      }
    }
  }

  /** `zip` stops at the shorter list: repeating known labels behind it keeps a
      perfect score although the lists differ. */
  lemma PerfectWithoutEqualLengths(expected: seq<string>, more: seq<string>)
    requires expected != [] && forall l :: l in more ==> l in expected
    ensures Score(expected, expected + more) == 1.0
  {
    var actual := expected + more;
    PerfectCondition(expected, actual);
    forall l | l in expected || l in actual ensures PairedAs(expected, actual, l) {
      var i :| 0 <= i < |expected| && expected[i] == l;
      assert actual[i] == l;
    }
  }

  // ----- the value -----

  /** The positions of both lists at which the label is expected and answered, only
      answered, and only expected. */
  function BothAt(expected: seq<string>, actual: seq<string>, l: string): set<nat> {
    set i: nat | i < |expected| && i < |actual| && expected[i] == l && actual[i] == l
  }

  function OnlyActualAt(expected: seq<string>, actual: seq<string>, l: string): set<nat> {
    set i: nat | i < |expected| && i < |actual| && expected[i] != l && actual[i] == l
  }

  function OnlyExpectedAt(expected: seq<string>, actual: seq<string>, l: string): set<nat> {
    set i: nat | i < |expected| && i < |actual| && expected[i] == l && actual[i] != l
  }

  lemma {:induction false} ZipMeaning(expected: seq<string>, actual: seq<string>)
    ensures |Zip(expected, actual)| == if |expected| < |actual| then |expected| else |actual|
    ensures forall i :: 0 <= i < |Zip(expected, actual)| ==> Zip(expected, actual)[i] == (expected[i], actual[i])
  {
    if expected != [] && actual != [] {
      ZipMeaning(expected[1..], actual[1..]);
    }
  }

  lemma {:induction false} CountsSnoc(pairs: seq<(string, string)>, p: (string, string), l: string)
    ensures TruePositives(pairs + [p], l) == TruePositives(pairs, l) + if p.0 == l && p.1 == l then 1 else 0
    ensures FalsePositives(pairs + [p], l) == FalsePositives(pairs, l) + if p.0 != l && p.1 == l then 1 else 0
    ensures FalseNegatives(pairs + [p], l) == FalseNegatives(pairs, l) + if p.0 == l && p.1 != l then 1 else 0
  {
    if pairs == [] {
      assert pairs + [p] == [p] && [p][1..] == [];
    } else {
      assert (pairs + [p])[1..] == pairs[1..] + [p];
      CountsSnoc(pairs[1..], p, l);
    }
  }

  /** The first n positions that satisfy the test. */
  function Positions(test: ((string, string)) -> bool, pairs: seq<(string, string)>): set<nat> {
    set i: nat | i < |pairs| && test(pairs[i])
  }

  lemma PositionsSnoc(test: ((string, string)) -> bool, pairs: seq<(string, string)>, p: (string, string))
    ensures |Positions(test, pairs + [p])| == |Positions(test, pairs)| + if test(p) then 1 else 0
  {
    var more := pairs + [p];
    assert Positions(test, more) == Positions(test, pairs) + if test(p) then {|pairs|} else {};
  }

  lemma {:induction false} CountsArePositions(pairs: seq<(string, string)>, l: string)
    ensures TruePositives(pairs, l) == |Positions((p: (string, string)) => p.0 == l && p.1 == l, pairs)|
    ensures FalsePositives(pairs, l) == |Positions((p: (string, string)) => p.0 != l && p.1 == l, pairs)|
    ensures FalseNegatives(pairs, l) == |Positions((p: (string, string)) => p.0 == l && p.1 != l, pairs)|
    decreases |pairs|
  {
    if pairs != [] {
      var init, p := pairs[..|pairs| - 1], pairs[|pairs| - 1];
      assert pairs == init + [p];
      CountsArePositions(init, l);
      CountsSnoc(init, p, l);
      PositionsSnoc((p: (string, string)) => p.0 == l && p.1 == l, init, p);
      PositionsSnoc((p: (string, string)) => p.0 != l && p.1 == l, init, p);
      PositionsSnoc((p: (string, string)) => p.0 == l && p.1 != l, init, p);
    }
  }

  /** The three counts are numbers of positions. */
  lemma CountsMeaning(expected: seq<string>, actual: seq<string>, l: string)
    ensures TruePositives(Zip(expected, actual), l) == |BothAt(expected, actual, l)|
    ensures FalsePositives(Zip(expected, actual), l) == |OnlyActualAt(expected, actual, l)|
    ensures FalseNegatives(Zip(expected, actual), l) == |OnlyExpectedAt(expected, actual, l)|
  {
    var pairs := Zip(expected, actual);
    ZipMeaning(expected, actual);
    CountsArePositions(pairs, l);
    assert Positions((p: (string, string)) => p.0 == l && p.1 == l, pairs) == BothAt(expected, actual, l);
    assert Positions((p: (string, string)) => p.0 != l && p.1 == l, pairs) == OnlyActualAt(expected, actual, l);
    assert Positions((p: (string, string)) => p.0 == l && p.1 != l, pairs) == OnlyExpectedAt(expected, actual, l);
  }

  /** x y == z when both sides agree after multiplying by something that is not zero. */
  lemma Cancel(k: real, x: real, y: real)
    requires k != 0.0 && k * x == k * y
    ensures x == y
  {}

  /** The harmonic mean of a / (a + b) and a / (a + c), times 2a + b + c, is 2a. */
  lemma HarmonicValue(a: nat, b: nat, c: nat)
    ensures HarmonicMean(Ratio(a, b), Ratio(a, c)) * (2 * a + b + c) as real == (2 * a) as real
  {
    RatioRange(a, b);
    RatioRange(a, c);
    if a > 0 {
      var x, m, n := a as real, (a + b) as real, (a + c) as real;
      var p, r := Ratio(a, b), Ratio(a, c);
      var h := HarmonicMean(p, r);
      assert p * m == x && r * n == x && p + r > 0.0;
      assert h * (p + r) == 2.0 * p * r;
      HarmonicSteps(x, m, n, p, r, h);
    }
  }

  lemma HarmonicSteps(x: real, m: real, n: real, p: real, r: real, h: real)
    requires x > 0.0 && p * m == x && r * n == x && h * (p + r) == 2.0 * p * r
    ensures h * (m + n) == 2.0 * x
  {
    calc {
      x * (h * (m + n));
      h * (x * n) + h * (x * m);
      h * ((p * m) * n) + h * ((r * n) * m);
      (h * (p + r)) * (m * n);
      (2.0 * p * r) * (m * n);
      2.0 * (p * m) * (r * n);
      x * (2.0 * x);
    }
    Cancel(x, h * (m + n), 2.0 * x);
  }

  lemma Quotient(h: real, d: real, x: real)
    requires d != 0.0 && h * d == x
    ensures h == x / d
  {
    Cancel(d, h, x / d);
  }

  lemma HarmonicQuotient(a: nat, b: nat, c: nat)
    ensures HarmonicMean(Ratio(a, b), Ratio(a, c)) ==
            if 2 * a + b + c == 0 then 0.0 else (2 * a) as real / (2 * a + b + c) as real
  {
    if 2 * a + b + c > 0 {
      HarmonicValue(a, b, c);
      Quotient(HarmonicMean(Ratio(a, b), Ratio(a, c)), (2 * a + b + c) as real, (2 * a) as real);
    }
  }

  /** Twice the hits over twice the hits plus both kinds of misses. */
  function LabelScore(expected: seq<string>, actual: seq<string>, l: string): real {
    var tp := |BothAt(expected, actual, l)|;
    var all := 2 * tp + |OnlyActualAt(expected, actual, l)| + |OnlyExpectedAt(expected, actual, l)|;
    if all == 0 then 0.0 else (2 * tp) as real / all as real
  }

  /** One label's score, by positions. */
  lemma F1Value(expected: seq<string>, actual: seq<string>, l: string)
    ensures F1(Zip(expected, actual), l) == LabelScore(expected, actual, l)
  {
    var pairs := Zip(expected, actual);
    CountsMeaning(expected, actual, l);
    HarmonicQuotient(TruePositives(pairs, l), FalsePositives(pairs, l), FalseNegatives(pairs, l));
  }

  function LabelScores(expected: seq<string>, actual: seq<string>, labels: seq<string>): real {
    if labels == [] then 0.0
    else LabelScore(expected, actual, labels[0]) + LabelScores(expected, actual, labels[1..])
  }

  lemma {:induction false} ScoresAgree(expected: seq<string>, actual: seq<string>, labels: seq<string>)
    ensures F1Sum(Zip(expected, actual), labels) == LabelScores(expected, actual, labels)
  {
    if labels != [] {
      F1Value(expected, actual, labels[0]);
      ScoresAgree(expected, actual, labels[1..]);
    }
  }

  /** Taking one label out of the sum. */
  lemma {:induction false} SumWithout(expected: seq<string>, actual: seq<string>,
                                      a: seq<string>, l: string, b: seq<string>)
    ensures LabelScores(expected, actual, a + [l] + b)
              == LabelScore(expected, actual, l) + LabelScores(expected, actual, a + b)
  {
    if a == [] {
      assert a + [l] + b == [l] + b && a + b == b && ([l] + b)[1..] == b;
    } else {
      assert (a + [l] + b)[1..] == a[1..] + [l] + b && (a + b)[1..] == a[1..] + b;
      SumWithout(expected, actual, a[1..], l, b);
    }
  }

  lemma {:induction false} SumIgnoresOrder(expected: seq<string>, actual: seq<string>, xs: seq<string>, ys: seq<string>)
    requires multiset(xs) == multiset(ys)
    ensures LabelScores(expected, actual, xs) == LabelScores(expected, actual, ys)
  {
    SameMultiset(xs, ys);
    if xs != [] {
      var a, b := TakeOut(xs, ys);
      SumIgnoresOrder(expected, actual, xs[1..], a + b);
      SumWithout(expected, actual, a, xs[0], b);
    }
  }

  lemma SameLabels(expected: seq<string>, actual: seq<string>, labels: seq<string>)
    requires Distinct(labels) && forall l :: l in labels <==> l in expected || l in actual
    ensures multiset(Labels(expected, actual)) == multiset(labels) && |Labels(expected, actual)| == |labels|
  {
    var ours := Labels(expected, actual);
    Text.SortedNamesMembers(expected + actual);
    DistinctSameMembers(ours, labels);
    SameMultiset(ours, labels);
  }

  /** The value of the score, by positions: over any listing of the distinct labels,
      the mean of their scores, or 0 without labels. */
  lemma {:induction false} ScoreValue(expected: seq<string>, actual: seq<string>, labels: seq<string>)
    requires Distinct(labels) && forall l :: l in labels <==> l in expected || l in actual
    ensures Score(expected, actual) ==
            if labels == [] then 0.0 else LabelScores(expected, actual, labels) / |labels| as real
  {
    SameLabels(expected, actual, labels);
    ScoresAgree(expected, actual, Labels(expected, actual));
    SumIgnoresOrder(expected, actual, Labels(expected, actual), labels);
  }
}
