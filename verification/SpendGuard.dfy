/** The router experiment's method-by-repeat loop and its spend guard. */
module SpendGuard {
  import opened Sequences

  /** The guard: the limit is reached, or another block like the last would pass it. */
  predicate Trips(enforced: bool, limit: real, spent: real, last: real) {
    enforced && (spent >= limit || (last > 0.0 && spent + last > limit))
  }

  function Cost(costs: seq<real>): real {
    if costs == [] then 0.0 else Cost(costs[..|costs| - 1]) + costs[|costs| - 1]
  }

  function Last(costs: seq<real>): real {
    if costs == [] then 0.0 else costs[|costs| - 1]
  }

  /** Whether the guard lets the n-th of the blocks run after all those before it. */
  predicate Passes(enforced: bool, limit: real, costs: seq<real>, n: nat)
    requires n < |costs|
  {
    !Trips(enforced, limit, Cost(costs[..n]), Last(costs[..n]))
  }

  /** n is how many blocks run: the guard passes each of them and stops the next. */
  ghost predicate Stops(enforced: bool, limit: real, costs: seq<real>, n: nat) {
    && n <= |costs|
    && (forall k :: 0 <= k < n ==> Passes(enforced, limit, costs, k))
    && (n < |costs| ==> !Passes(enforced, limit, costs, n))
  }

  /** At most one such n: the guard allows one prefix of the blocks and no other. */
  lemma StopsOnce(enforced: bool, limit: real, costs: seq<real>, n: nat, m: nat)
    requires Stops(enforced, limit, costs, n) && Stops(enforced, limit, costs, m)
    ensures n == m
  {}

  ghost predicate NonNegative(costs: seq<real>) {
    forall k :: 0 <= k < |costs| ==> costs[k] >= 0.0
  }

  /** The block names in order: method i, repeat j. */
  function Blocks(rows: seq<seq<real>>, i: nat, j: nat): seq<(nat, nat)>
    decreases |rows| - i, if i < |rows| then |rows[i]| - j else 0
  {
    if i >= |rows| then []
    else if j >= |rows[i]| then Blocks(rows, i + 1, 0)
    else [(i, j)] + Blocks(rows, i, j + 1)
  }

  /** The costs the blocks have, or would have, in the same order. */
  function Costs(rows: seq<seq<real>>, i: nat, j: nat): seq<real>
    decreases |rows| - i, if i < |rows| then |rows[i]| - j else 0
  {
    if i >= |rows| then []
    else if j >= |rows[i]| then Costs(rows, i + 1, 0)
    else [rows[i][j]] + Costs(rows, i, j + 1)
  }

  lemma {:induction false} SameLength(rows: seq<seq<real>>, i: nat, j: nat)
    ensures |Blocks(rows, i, j)| == |Costs(rows, i, j)|
    decreases |rows| - i, if i < |rows| then |rows[i]| - j else 0
  {
    if i >= |rows| {
    } else if j >= |rows[i]| {
      SameLength(rows, i + 1, 0);
    } else {
      SameLength(rows, i, j + 1);
    }
  }

  /** What the loops have done: the first n blocks have run. */
  ghost predicate Ran(rows: seq<seq<real>>, enforced: bool, limit: real, n: nat,
                      completed: seq<(nat, nat)>, spent: real, last: real) {
    var names, costs := Blocks(rows, 0, 0), Costs(rows, 0, 0);
    && n <= |costs| == |names|
    && completed == names[..n] && spent == Cost(costs[..n]) && last == Last(costs[..n])
    && (forall k :: 0 <= k < n ==> Passes(enforced, limit, costs, k))
  }

  /** Method i, repeat j is the n-th block. */
  ghost predicate At(rows: seq<seq<real>>, n: nat, i: nat, j: nat) {
    && n <= |Costs(rows, 0, 0)| == |Blocks(rows, 0, 0)|
    && Blocks(rows, 0, 0)[n..] == Blocks(rows, i, j) && Costs(rows, 0, 0)[n..] == Costs(rows, i, j)
  }

  lemma RunOne(rows: seq<seq<real>>, enforced: bool, limit: real, n: nat, i: nat, j: nat,
               completed: seq<(nat, nat)>, spent: real, last: real)
    requires Ran(rows, enforced, limit, n, completed, spent, last) && At(rows, n, i, j)
    requires i < |rows| && j < |rows[i]| && !Trips(enforced, limit, spent, last)
    ensures Ran(rows, enforced, limit, n + 1, completed + [(i, j)], spent + rows[i][j], rows[i][j])
    ensures At(rows, n + 1, i, j + 1)
  {
    var names, costs := Blocks(rows, 0, 0), Costs(rows, 0, 0);
    assert names[n..][0] == (i, j) && costs[n..][0] == rows[i][j];
    assert names[n..][1..] == names[n + 1..] && costs[n..][1..] == costs[n + 1..];
    assert names[..n + 1] == names[..n] + [(i, j)];
    assert costs[..n + 1][..n] == costs[..n];
    assert Passes(enforced, limit, costs, n);
  }

  /** The nested loops.  `break` leaves the inner one only, but the guard, once it
      has tripped, trips at every later block: nothing has been spent since. */
  method RunBlocks(rows: seq<seq<real>>, enforced: bool, limit: real)
    returns (completed: seq<(nat, nat)>, spent: real)
    requires forall k :: 0 <= k < |rows| ==> NonNegative(rows[k])
    ensures |completed| <= |Costs(rows, 0, 0)| == |Blocks(rows, 0, 0)|
    ensures completed == Blocks(rows, 0, 0)[..|completed|]
    ensures spent == Cost(Costs(rows, 0, 0)[..|completed|])
    ensures forall n :: Stops(enforced, limit, Costs(rows, 0, 0), n) <==> n == |completed|
  {
    SameLength(rows, 0, 0);
    completed, spent := [], 0.0;
    var last := 0.0;
    ghost var n: nat, tripped := 0, false;
    for i := 0 to |rows|
      invariant Ran(rows, enforced, limit, n, completed, spent, last)
      invariant if tripped then Trips(enforced, limit, spent, last) && n < |Costs(rows, 0, 0)| else At(rows, n, i, 0)
    {
      for j := 0 to |rows[i]|
        invariant Ran(rows, enforced, limit, n, completed, spent, last)
        invariant if tripped then Trips(enforced, limit, spent, last) && n < |Costs(rows, 0, 0)| else At(rows, n, i, j)
      {
        if enforced && (spent >= limit || (last > 0.0 && spent + last > limit)) {
          assert !tripped ==> Costs(rows, i, j) != [];
          tripped := true;
          break;
        }
        RunOne(rows, enforced, limit, n, i, j, completed, spent, last);
        n := n + 1;
        var before := spent;
        completed := completed + [(i, j)];
        spent := spent + rows[i][j];
        assert NonNegative(rows[i]);
        last := if spent - before > 0.0 then spent - before else 0.0;
      }
    }
    assert Stops(enforced, limit, Costs(rows, 0, 0), n);
    forall m | Stops(enforced, limit, Costs(rows, 0, 0), m) ensures m == n {
      StopsOnce(enforced, limit, Costs(rows, 0, 0), m, n);
    }
  }

  // ----- how far the spend can go -----

  /** With the guard in force the spend after each executed block stays below the limit
      plus that block's cost; and after one whose predecessor cost something, it is at
      most the limit plus the block's increase over its predecessor. */
  lemma SpendBound(limit: real, costs: seq<real>, n: nat, k: nat)
    requires NonNegative(costs) && Stops(true, limit, costs, n) && 0 < k <= n
    ensures Cost(costs[..k]) < limit + costs[k - 1]
    ensures k > 1 && costs[k - 2] > 0.0 ==> Cost(costs[..k]) <= limit + (costs[k - 1] - costs[k - 2])
  {
    assert Passes(true, limit, costs, k - 1);
    assert costs[..k][..k - 1] == costs[..k - 1];
    if k > 1 {
      assert costs[..k - 1][k - 2] == costs[k - 2];
    }
  }

  /** A last block that costs no more than its predecessor does not overrun the limit. */
  lemma SteadyCosts(limit: real, costs: seq<real>, n: nat)
    requires NonNegative(costs) && Stops(true, limit, costs, n) && n > 1
    requires costs[n - 2] > 0.0 && costs[n - 1] <= costs[n - 2]
    ensures Cost(costs[..n]) <= limit
  {
    SpendBound(limit, costs, n, n);
  }

  // ----- when a block runs -----

  /** A block runs, after those before it, exactly when the guard is off, or the limit is
      not reached and another block like the last one, if that cost something, stays
      within it. */
  lemma BlockRuns(enforced: bool, limit: real, costs: seq<real>, n: nat, k: nat)
    requires NonNegative(costs) && Stops(enforced, limit, costs, n) && k <= n && k < |costs|
    ensures k < n <==>
            !enforced || (Cost(costs[..k]) < limit
                          && (k > 0 && costs[k - 1] > 0.0 ==> Cost(costs[..k]) + costs[k - 1] <= limit))
  {
    if k < n { assert Passes(enforced, limit, costs, k); }
    if k > 0 { assert costs[..k][k - 1] == costs[k - 1]; }
  }

  /** Without the guard every block runs. */
  lemma UnenforcedRunsAll(limit: real, costs: seq<real>, n: nat)
    requires NonNegative(costs) && Stops(false, limit, costs, n)
    ensures n == |costs|
  {
    if n < |costs| { BlockRuns(false, limit, costs, n, n); }
  }

  lemma {:induction false} CostConcat(a: seq<real>, b: seq<real>)
    ensures Cost(a + b) == Cost(a) + Cost(b)
    ensures |a| == 1 ==> Cost(a) == a[0]
    decreases |b|
  {
    if b == [] {
      assert a + b == a;
    } else {
      CostConcat(a, b[..|b| - 1]);
      assert (a + b)[..|a + b| - 1] == a + b[..|b| - 1];
    }
    if |a| == 1 { assert a[..0] == []; }
  }

  /** Block (i, j) comes before block (x, y): method by method, repeat by repeat. */
  predicate ComesBefore(a: (nat, nat), b: (nat, nat)) {
    a.0 < b.0 || (a.0 == b.0 && a.1 < b.1)
  }

  /** The blocks follow each other. */
  ghost predicate InSequence(names: seq<(nat, nat)>) {
    forall k, m :: 0 <= k < m < |names| ==> ComesBefore(names[k], names[m])
  }

  /** The blocks from (i, j) on. */
  predicate From(rows: seq<seq<real>>, i: nat, j: nat, b: (nat, nat)) {
    b.0 < |rows| && b.1 < |rows[b.0]| && (b == (i, j) || ComesBefore((i, j), b))
  }

  lemma {:induction false} BlocksListed(rows: seq<seq<real>>, i: nat, j: nat)
    ensures forall b :: b in Blocks(rows, i, j) <==> From(rows, i, j, b)
    decreases |rows| - i, if i < |rows| then |rows[i]| - j else 0
  {
    if i < |rows| {
      if j >= |rows[i]| { BlocksListed(rows, i + 1, 0); } else { BlocksListed(rows, i, j + 1); }
    }
  }

  lemma {:induction false} BlocksOrdered(rows: seq<seq<real>>, i: nat, j: nat)
    ensures InSequence(Blocks(rows, i, j))
    decreases |rows| - i, if i < |rows| then |rows[i]| - j else 0
  {
    if i < |rows| {
      if j >= |rows[i]| {
        BlocksOrdered(rows, i + 1, 0);
      } else {
        var rest := Blocks(rows, i, j + 1);
        BlocksOrdered(rows, i, j + 1);
        BlocksListed(rows, i, j + 1);
        forall m | 0 <= m < |rest| ensures ComesBefore((i, j), rest[m]) { assert rest[m] in rest; }
      }
    }
  }

  lemma {:induction false} BlockCosts(rows: seq<seq<real>>, i: nat, j: nat, k: nat)
    requires k < |Blocks(rows, i, j)|
    ensures var b := Blocks(rows, i, j)[k];
            && k < |Costs(rows, i, j)| && b.0 < |rows| && b.1 < |rows[b.0]|
            && Costs(rows, i, j)[k] == rows[b.0][b.1]
    decreases |rows| - i, if i < |rows| then |rows[i]| - j else 0
  {
    if i < |rows| {
      if j >= |rows[i]| { BlockCosts(rows, i + 1, 0, k); } else if k > 0 { BlockCosts(rows, i, j + 1, k - 1); }
    }
  }

  /** All blocks, method by method and repeat by repeat, each with its own cost. */
  lemma BlocksInOrder(rows: seq<seq<real>>)
    ensures var names, costs := Blocks(rows, 0, 0), Costs(rows, 0, 0);
            && |names| == |costs|
            && (forall i: nat, j: nat :: (i, j) in names <==> i < |rows| && j < |rows[i]|)
            && InSequence(names)
            && (forall k :: 0 <= k < |names| ==>
                  names[k].0 < |rows| && names[k].1 < |rows[names[k].0]| && costs[k] == rows[names[k].0][names[k].1])
  {
    SameLength(rows, 0, 0);
    BlocksListed(rows, 0, 0);
    BlocksOrdered(rows, 0, 0);
    forall k | 0 <= k < |Blocks(rows, 0, 0)| { BlockCosts(rows, 0, 0, k); }
  }
}
