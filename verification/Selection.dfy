/** The two round-robin samplers: `select_instances` of the benchmark slice and
    `_stratified_items` of the router experiment. */
module Selection {
  import opened Sequences
  import Text

  /** A record: its id, the repository or intent it is grouped by, and the rest. */
  datatype Row = Row(id: string, group: string, rest: string)

  // ----- the batch definition -----

  function Heads(lists: seq<seq<Row>>): seq<Row> {
    if lists == [] then []
    else if lists[0] == [] then Heads(lists[1..])
    else [lists[0][0]] + Heads(lists[1..])
  }

  function Tails(lists: seq<seq<Row>>): (r: seq<seq<Row>>)
    ensures |r| == |lists|
  {
    if lists == [] then [] else [if lists[0] == [] then [] else lists[0][1..]] + Tails(lists[1..])
  }

  function Total(lists: seq<seq<Row>>): nat {
    |Concat(lists)|
  }

  lemma {:induction false} HeadsAndTails(lists: seq<seq<Row>>)
    ensures multiset(Concat(lists)) == multiset(Heads(lists)) + multiset(Concat(Tails(lists)))
    ensures Total(Tails(lists)) == Total(lists) - |Heads(lists)|
    ensures Heads(lists) == [] <==> Concat(lists) == []
  {
    if lists != [] {
      HeadsAndTails(lists[1..]);
      if lists[0] != [] {
        assert lists[0] == [lists[0][0]] + lists[0][1..];
      }
    }
  }

  /** Round after round, the next of every list that still has one. */
  function Rounds(lists: seq<seq<Row>>): seq<Row>
    decreases Total(lists)
  {
    if Heads(lists) == [] then [] else
      HeadsAndTails(lists);
      Heads(lists) + Rounds(Tails(lists))
  }

  lemma {:induction false} RoundsPermute(lists: seq<seq<Row>>)
    ensures multiset(Rounds(lists)) == multiset(Concat(lists))
    ensures |Rounds(lists)| == Total(lists)
    decreases Total(lists)
  {
    HeadsAndTails(lists);
    if Heads(lists) != [] {
      RoundsPermute(Tails(lists));
    }
  }

  // ----- the loop -----

  function Head(l: seq<Row>): seq<Row> {
    if l == [] then [] else [l[0]]
  }

  function Tail(l: seq<Row>): seq<Row> {
    if l == [] then [] else l[1..]
  }

  lemma {:induction false} HeadsSnoc(lists: seq<seq<Row>>, l: seq<Row>)
    ensures Heads(lists + [l]) == Heads(lists) + Head(l)
  {
    if lists == [] {
      assert lists + [l] == [l] && [l][1..] == [];
    } else {
      assert (lists + [l])[1..] == lists[1..] + [l];
      HeadsSnoc(lists[1..], l);
      Reassociate(Head(lists[0]), Heads(lists[1..]), Head(l));
    }
  }

  lemma {:induction false} TailsSnoc(lists: seq<seq<Row>>, l: seq<Row>)
    ensures Tails(lists + [l]) == Tails(lists) + [Tail(l)]
  {
    if lists == [] {
      assert lists + [l] == [l] && [l][1..] == [];
    } else {
      assert (lists + [l])[1..] == lists[1..] + [l];
      TailsSnoc(lists[1..], l);
    }
  }

  lemma TakeSnoc(limit: int, xs: seq<Row>, more: seq<Row>)
    ensures |more| == 1 && |Take(limit, xs)| < limit ==>
        Take(limit, xs + more) == Take(limit, xs) + more && |xs + more| <= limit
    ensures more == [] ==> Take(limit, xs + more) == Take(limit, xs) && xs + more == xs
    ensures limit > 0 && |Take(limit, xs)| >= limit ==> Take(limit, xs + more) == Take(limit, xs)
  {}

  /** One turn of the loop over the groups. */
  method Turn(lists: seq<seq<Row>>, before: seq<Row>, limit: int)
    returns (groups: seq<seq<Row>>, selected: seq<Row>, progressed: bool)
    requires |before| < limit
    ensures selected == Take(limit, before + Heads(lists))
    ensures |before + Heads(lists)| <= limit ==> groups == Tails(lists)
    ensures progressed <==> Heads(lists) != []
  {
    groups, selected, progressed := lists, before, false;
    assert before + Heads(lists[..0]) == before;
    for i := 0 to |lists|
      invariant |groups| == |lists| && (forall k :: i <= k < |lists| ==> groups[k] == lists[k])
      invariant selected == Take(limit, before + Heads(lists[..i]))
      invariant |before + Heads(lists[..i])| <= limit ==> groups[..i] == Tails(lists[..i])
      invariant progressed <==> Heads(lists[..i]) != []
    {
      assert lists[..i + 1] == lists[..i] + [lists[i]];
      HeadsSnoc(lists[..i], lists[i]);
      TailsSnoc(lists[..i], lists[i]);
      Reassociate(before, Heads(lists[..i]), Head(lists[i]));
      TakeSnoc(limit, before + Heads(lists[..i]), Head(lists[i]));
      if groups[i] != [] && |selected| < limit {
        selected := selected + [groups[i][0]];
        groups := groups[i := groups[i][1..]];
        progressed := true;
      }
    }
    assert lists[..|lists|] == lists;
  }

  /** The while loop both samplers share: it pops from the front of the groups in
      turn until enough is selected or a whole turn yields nothing. */
  method RoundRobin(lists: seq<seq<Row>>, limit: int) returns (selected: seq<Row>, exhausted: bool)
    ensures selected == Take(limit, Rounds(lists))
    ensures exhausted <==> |Rounds(lists)| < limit
  {
    var groups := lists;
    selected, exhausted := [], false;
    while |selected| < limit
      invariant |selected| < limit ==> Rounds(lists) == selected + Rounds(groups)
      invariant |selected| >= limit ==> selected == Take(limit, Rounds(lists)) && |Rounds(lists)| >= limit
      decreases limit - |selected|
    {
      ghost var g, before := groups, selected;
      var progressed: bool;
      groups, selected, progressed := Turn(groups, selected, limit);
      HeadsAndTails(g);
      if !progressed {
        exhausted := true;
        assert before + [] == before;
        return;
      }
      Reassociate(before, Heads(g), Rounds(Tails(g)));
    }
  }

  /** `select_instances` after the groups are filled and sorted: too few eligible
      rows are an error. */
  method Select(lists: seq<seq<Row>>, count: int) returns (r: Result<seq<Row>, string>)
    ensures r == if Total(lists) < count then Err("not enough distinct instances") else Ok(Take(count, Rounds(lists)))
  {
    RoundsPermute(lists);
    var selected, exhausted := RoundRobin(lists, count);
    if exhausted {
      return Err("not enough distinct instances");
    }
    return Ok(selected);
  }

  // ----- grouping -----

  function InGroup(g: string): Row -> bool {
    (r: Row) => r.group == g
  }

  function GroupNames(rows: seq<Row>): seq<string> {
    if rows == [] then [] else GroupNames(rows[..|rows| - 1]) + [rows[|rows| - 1].group]
  }

  function GroupedBy(rows: seq<Row>, names: seq<string>): seq<seq<Row>> {
    if names == [] then [] else [Filter(InGroup(names[0]), rows)] + GroupedBy(rows, names[1..])
  }

  function SortEach(leq: (Row, Row) -> bool, lists: seq<seq<Row>>): seq<seq<Row>> {
    if lists == [] then [] else [StableSort(leq, lists[0])] + SortEach(leq, lists[1..])
  }

  function NotExcluded(exclude: set<string>): Row -> bool {
    (r: Row) => r.id !in exclude
  }

  /** The hash both the rows and the repositories are ordered by. */
  function ByKey(key: string -> int): (string, string) -> bool {
    (a: string, b: string) => key(a) <= key(b)
  }

  function RowsByKey(key: string -> int): (Row, Row) -> bool {
    (a: Row, b: Row) => key(a.id) <= key(b.id)
  }

  /** The sorted groups of the slice. */
  function SliceLists(rows: seq<Row>, exclude: set<string>, key: string -> int): seq<seq<Row>> {
    var eligible := Filter(NotExcluded(exclude), rows);
    SortEach(RowsByKey(key), GroupedBy(eligible, StableSort(ByKey(key), Dedup(GroupNames(eligible)))))
  }

  /** The groups of the stratified sample: sorted intents, rows in file order. */
  function StratifiedLists(rows: seq<Row>): seq<seq<Row>> {
    GroupedBy(rows, Text.SortedNames(GroupNames(rows)))
  }

  /** A dictionary of the rows by group. */
  ghost predicate Filled(groups: map<string, seq<Row>>, rows: seq<Row>) {
    && (forall g :: g in groups <==> g in GroupNames(rows))
    && (forall g :: g in groups ==> groups[g] == Filter(InGroup(g), rows))
  }

  lemma OrderStep(rows: seq<Row>, row: Row)
    ensures var order := Dedup(GroupNames(rows));
            Dedup(GroupNames(rows + [row])) == if row.group in order then order else order + [row.group]
  {
    var names := GroupNames(rows);
    assert (rows + [row])[..|rows|] == rows;
    assert (names + [row.group])[..|names|] == names;
  }

  lemma GroupStep(rows: seq<Row>, row: Row)
    ensures forall g :: Filter(InGroup(g), rows + [row]) ==
              if g == row.group then Filter(InGroup(g), rows) + [row] else Filter(InGroup(g), rows)
  {
    forall g ensures Filter(InGroup(g), rows + [row]) ==
      if g == row.group then Filter(InGroup(g), rows) + [row] else Filter(InGroup(g), rows)
    {
      FilterSnoc(InGroup(g), rows, row);
    }
  }

  lemma FillStep(groups: map<string, seq<Row>>, rows: seq<Row>, row: Row)
    requires Filled(groups, rows)
    ensures Filled(groups[row.group := (if row.group in groups then groups[row.group] else []) + [row]], rows + [row])
  {
    var g := row.group;
    GroupStep(rows, row);
    assert (rows + [row])[..|rows|] == rows;
    assert GroupNames(rows + [row]) == GroupNames(rows) + [g];
    if g !in groups {
      NoneInGroup(rows, g);
    }
  }

  /** `groups[row[...]].append(row)`, which makes the group when it is not there. */
  method AddRow(before: map<string, seq<Row>>, names: seq<string>, ghost rows: seq<Row>, row: Row)
    returns (groups: map<string, seq<Row>>, order: seq<string>)
    requires Filled(before, rows) && names == Dedup(GroupNames(rows))
    ensures Filled(groups, rows + [row]) && order == Dedup(GroupNames(rows + [row]))
  {
    FillStep(before, rows, row);
    OrderStep(rows, row);
    groups, order := before, names;
    if row.group !in groups {
      groups := groups[row.group := []];
      order := order + [row.group];
    }
    groups := groups[row.group := groups[row.group] + [row]];
  }

  lemma EligibleStep(rows: seq<Row>, exclude: set<string>, n: nat)
    requires n < |rows|
    ensures var eligible := Filter(NotExcluded(exclude), rows[..n]);
            Filter(NotExcluded(exclude), rows[..n + 1]) ==
              if rows[n].id !in exclude then eligible + [rows[n]] else eligible
  {
    assert rows[..n + 1] == rows[..n] + [rows[n]];
    FilterSnoc(NotExcluded(exclude), rows[..n], rows[n]);
  }

  /** The first n rows, without the excluded ones, have been put into their groups. */
  ghost predicate FilledUpTo(groups: map<string, seq<Row>>, order: seq<string>,
                             rows: seq<Row>, exclude: set<string>, n: nat)
    requires n <= |rows|
  {
    var eligible := Filter(NotExcluded(exclude), rows[..n]);
    Filled(groups, eligible) && order == Dedup(GroupNames(eligible))
  }

  /** One turn of the loop: an excluded row is passed over. */
  method TakeRow(before: map<string, seq<Row>>, names: seq<string>, rows: seq<Row>, exclude: set<string>, n: nat)
    returns (groups: map<string, seq<Row>>, order: seq<string>)
    requires n < |rows| && FilledUpTo(before, names, rows, exclude, n)
    ensures FilledUpTo(groups, order, rows, exclude, n + 1)
  {
    EligibleStep(rows, exclude, n);
    groups, order := before, names;
    if rows[n].id !in exclude {
      groups, order := AddRow(groups, order, Filter(NotExcluded(exclude), rows[..n]), rows[n]);
    }
  }

  /** The loop over the rows, and the order of the keys. */
  method FillGroups(rows: seq<Row>, exclude: set<string>) returns (groups: map<string, seq<Row>>, order: seq<string>)
    ensures var eligible := Filter(NotExcluded(exclude), rows);
            Filled(groups, eligible) && order == Dedup(GroupNames(eligible))
  {
    groups, order := map[], [];
    assert Filter(NotExcluded(exclude), rows[..0]) == [];
    for n := 0 to |rows|
      invariant FilledUpTo(groups, order, rows, exclude, n)
    {
      groups, order := TakeRow(groups, order, rows, exclude, n);
    }
    assert rows[..|rows|] == rows;
  }

  lemma {:induction false} NoneInGroup(rows: seq<Row>, g: string)
    requires g !in GroupNames(rows)
    ensures Filter(InGroup(g), rows) == []
  {
    if rows != [] {
      var init := rows[..|rows| - 1];
      NoneInGroup(init, g);
      FilterSnoc(InGroup(g), init, rows[|rows| - 1]);
      assert rows == init + [rows[|rows| - 1]];
    }
  }

  /** The groups of a filled dictionary, in a given order of its keys. */
  method ListGroups(rows: seq<Row>, groups: map<string, seq<Row>>, names: seq<string>) returns (lists: seq<seq<Row>>)
    requires forall g :: g in names ==> g in groups && groups[g] == Filter(InGroup(g), rows)
    ensures lists == GroupedBy(rows, names)
  {
    lists := [];
    for i := 0 to |names|
      invariant lists == GroupedBy(rows, names[..i])
    {
      assert names[i] in names && names[..i + 1] == names[..i] + [names[i]];
      GroupedSnoc(rows, names[..i], names[i]);
      lists := lists + [groups[names[i]]];
    }
    assert names[..|names|] == names;
  }

  lemma {:induction false} GroupedSnoc(rows: seq<Row>, names: seq<string>, g: string)
    ensures GroupedBy(rows, names + [g]) == GroupedBy(rows, names) + [Filter(InGroup(g), rows)]
  {
    if names == [] {
      assert names + [g] == [g] && [g][1..] == [];
    } else {
      assert (names + [g])[1..] == names[1..] + [g];
      GroupedSnoc(rows, names[1..], g);
    }
  }

  /** `select_instances`. */
  method SelectInstances(rows: seq<Row>, count: int, exclude: set<string>, key: string -> int)
    returns (r: Result<seq<Row>, string>)
    ensures var lists := SliceLists(rows, exclude, key);
            r == if Total(lists) < count then Err("not enough distinct instances") else Ok(Take(count, Rounds(lists)))
  {
    var groups, order := FillGroups(rows, exclude);
    ghost var eligible := Filter(NotExcluded(exclude), rows);
    SortMembers(ByKey(key), order);
    var repos := StableSort(ByKey(key), order);
    var lists := ListGroups(Filter(NotExcluded(exclude), rows), groups, repos);
    r := Select(SortEach(RowsByKey(key), lists), count);
  }

  /** `_stratified_items`. */
  method StratifiedItems(rows: seq<Row>, limit: int) returns (selected: seq<Row>)
    ensures selected == Take(limit, Rounds(StratifiedLists(rows)))
  {
    var groups, order := FillGroups(rows, {});
    FilterAll(NotExcluded({}), rows);
    SortMembers(Text.LEQ, order);
    var lists := ListGroups(rows, groups, StableSort(Text.LEQ, order));
    var exhausted: bool;
    selected, exhausted := RoundRobin(lists, limit);
  }

  // ----- what is selected -----

  function InGroups(names: seq<string>): Row -> bool {
    (r: Row) => r.group in names
  }

  lemma {:induction false} GroupedPermutes(rows: seq<Row>, names: seq<string>)
    requires Distinct(names)
    ensures multiset(Concat(GroupedBy(rows, names))) == multiset(Filter(InGroups(names), rows))
  {
    if names == [] {
      FilterNone(InGroups(names), rows);
    } else {
      GroupedPermutes(rows, names[1..]);
      assert names == [names[0]] + names[1..];
      FilterUnion(InGroup(names[0]), InGroups(names[1..]), InGroups(names), rows);
    }
  }

  lemma {:induction false} SortEachPermutes(leq: (Row, Row) -> bool, lists: seq<seq<Row>>)
    ensures multiset(Concat(SortEach(leq, lists))) == multiset(Concat(lists))
    ensures |SortEach(leq, lists)| == |lists|
    ensures forall i :: 0 <= i < |lists| ==> SortEach(leq, lists)[i] == StableSort(leq, lists[i])
  {
    if lists != [] {
      SortEachPermutes(leq, lists[1..]);
      SortPermutes(leq, lists[0]);
    }
  }

  lemma {:induction false} NamesCover(rows: seq<Row>)
    ensures forall r :: r in rows ==> r.group in GroupNames(rows)
  {
    if rows != [] {
      var init := rows[..|rows| - 1];
      NamesCover(init);
      assert rows == init + [rows[|rows| - 1]];
    }
  }

  /** names is some order of the groups of the rows. */
  ghost predicate NamesOf(names: seq<string>, rows: seq<Row>) {
    Distinct(names) && forall g :: g in names <==> g in GroupNames(rows)
  }

  lemma GroupedAll(rows: seq<Row>, names: seq<string>)
    requires NamesOf(names, rows)
    ensures multiset(Concat(GroupedBy(rows, names))) == multiset(rows)
  {
    NamesCover(rows);
    GroupedPermutes(rows, names);
    FilterAll(InGroups(names), rows);
  }

  lemma SliceNames(rows: seq<Row>, key: string -> int)
    ensures NamesOf(StableSort(ByKey(key), Dedup(GroupNames(rows))), rows)
  {
    var d := Dedup(GroupNames(rows));
    SortPermutes(ByKey(key), d);
    SortMembers(ByKey(key), d);
    DistinctByMultiset(d, StableSort(ByKey(key), d));
  }

  /** The rounds run through every eligible row once. */
  lemma SliceIsComplete(rows: seq<Row>, exclude: set<string>, key: string -> int)
    ensures multiset(Rounds(SliceLists(rows, exclude, key))) == multiset(Filter(NotExcluded(exclude), rows))
    ensures Total(SliceLists(rows, exclude, key)) == |Filter(NotExcluded(exclude), rows)|
  {
    var eligible := Filter(NotExcluded(exclude), rows);
    var names := StableSort(ByKey(key), Dedup(GroupNames(eligible)));
    SliceNames(eligible, key);
    GroupedAll(eligible, names);
    SortEachPermutes(RowsByKey(key), GroupedBy(eligible, names));
    RoundsPermute(SliceLists(rows, exclude, key));
    SameMultiset(Concat(SliceLists(rows, exclude, key)), eligible);
  }

  lemma StratifiedIsComplete(rows: seq<Row>)
    ensures multiset(Rounds(StratifiedLists(rows))) == multiset(rows)
    ensures |Rounds(StratifiedLists(rows))| == |rows|
  {
    Text.SortedNamesMembers(GroupNames(rows));
    GroupedAll(rows, Text.SortedNames(GroupNames(rows)));
    RoundsPermute(StratifiedLists(rows));
    SameMultiset(Rounds(StratifiedLists(rows)), rows);
  }

  lemma {:induction false} DistinctTake<T>(n: int, xs: seq<T>)
    requires Distinct(xs)
    ensures Distinct(Take(n, xs)) && forall x :: x in Take(n, xs) ==> x in xs
  {}

  /** Distinct eligible rows, exactly as many as asked for, none of them excluded;
      an error exactly when there are too few. */
  lemma SelectionIsExact(rows: seq<Row>, count: nat, exclude: set<string>, key: string -> int)
    requires Distinct(rows)
    ensures var selected := Take(count, Rounds(SliceLists(rows, exclude, key)));
            var eligible := Filter(NotExcluded(exclude), rows);
            && Distinct(selected) && (forall r :: r in selected ==> r in rows && r.id !in exclude)
            && (Total(SliceLists(rows, exclude, key)) < count <==> |eligible| < count)
            && |selected| == if |eligible| < count then |eligible| else count
  {
    var eligible := Filter(NotExcluded(exclude), rows);
    var all := Rounds(SliceLists(rows, exclude, key));
    SliceIsComplete(rows, exclude, key);
    FilterDistinct(NotExcluded(exclude), rows);
    FilterMembers(NotExcluded(exclude), rows);
    SameMultiset(all, eligible);
    DistinctByMultiset(eligible, all);
    DistinctTake(count, all);
  }

  /** The stratified sample: distinct, and as many as asked for or everything. */
  lemma StratifiedIsExact(rows: seq<Row>, limit: nat)
    requires Distinct(rows)
    ensures var selected := Take(limit, Rounds(StratifiedLists(rows)));
            && Distinct(selected) && (forall r :: r in selected ==> r in rows)
            && |selected| == if |rows| < limit then |rows| else limit
  {
    var all := Rounds(StratifiedLists(rows));
    StratifiedIsComplete(rows);
    SameMultiset(all, rows);
    DistinctByMultiset(rows, all);
    DistinctTake(limit, all);
  }

  // ----- fairness -----

  /** lists[i] holds rows of group names[i] only. */
  ghost predicate Tagged(lists: seq<seq<Row>>, names: seq<string>) {
    && |lists| == |names| && Distinct(names)
    && (forall i, r :: 0 <= i < |lists| && r in lists[i] ==> r.group == names[i])
  }

  /** What the selection contains of one group. */
  function Share(g: string, selected: seq<Row>): seq<Row> {
    Filter(InGroup(g), selected)
  }

  lemma {:induction false} ShareOfHeads(lists: seq<seq<Row>>, names: seq<string>, i: nat, n: nat)
    requires Tagged(lists, names) && i < |lists| && n <= |Heads(lists)|
    ensures Share(names[i], Heads(lists)) == Head(lists[i])
    ensures Share(names[i], Heads(lists)[..n]) <= Head(lists[i])
  {
    var h := Heads(lists);
    OneHead(lists, names, i);
    assert h == h[..n] + h[n..];
    FilterConcat(InGroup(names[i]), h[..n], h[n..]);
  }

  lemma {:induction false} OneHead(lists: seq<seq<Row>>, names: seq<string>, i: nat)
    requires Tagged(lists, names) && i < |lists|
    ensures Share(names[i], Heads(lists)) == Head(lists[i])
  {
    var rest := Heads(lists[1..]);
    if lists[0] != [] {
      assert lists[0][0] in lists[0] && lists[0][0].group == names[0];
      assert ([lists[0][0]] + rest)[1..] == rest;
    }
    if i == 0 {
      NoHead(lists[1..], names[1..], names[0]);
    } else {
      assert Tagged(lists[1..], names[1..]);
      OneHead(lists[1..], names[1..], i - 1);
      assert names[0] != names[i];
    }
  }

  lemma {:induction false} NoHead(lists: seq<seq<Row>>, names: seq<string>, g: string)
    requires |lists| == |names| && g !in names
    requires forall i, r :: 0 <= i < |lists| && r in lists[i] ==> r.group == names[i]
    ensures Share(g, Heads(lists)) == []
  {
    if lists != [] {
      NoHead(lists[1..], names[1..], g);
      if lists[0] != [] {
        assert lists[0][0] in lists[0] && names[0] in names;
        assert ([lists[0][0]] + Heads(lists[1..]))[1..] == Heads(lists[1..]);
      }
    }
  }

  lemma {:induction false} TailsAt(lists: seq<seq<Row>>, i: nat)
    requires i < |lists|
    ensures Tails(lists)[i] == Tail(lists[i])
  {
    if i > 0 { TailsAt(lists[1..], i - 1); }
  }

  lemma TailsTagged(lists: seq<seq<Row>>, names: seq<string>)
    requires Tagged(lists, names)
    ensures Tagged(Tails(lists), names)
  {
    forall i: int, r: Row | 0 <= i < |lists| && r in Tails(lists)[i] ensures r.group == names[i] {
      TailsAt(lists, i);
      assert r in lists[i];
    }
  }

  /** One round: what a longer selection holds of a group is its first row and then
      what the rest of the selection holds of it. */
  lemma ShareStep(lists: seq<seq<Row>>, names: seq<string>, n: int, i: nat)
    requires Tagged(lists, names) && i < |lists| && n > |Heads(lists)| && Heads(lists) != []
    ensures Share(names[i], Take(n, Rounds(lists))) ==
            Head(lists[i]) + Share(names[i], Take(n - |Heads(lists)|, Rounds(Tails(lists))))
  {
    var h, rest := Heads(lists), Rounds(Tails(lists));
    assert Take(n, h + rest) == h + Take(n - |h|, rest);
    FilterConcat(InGroup(names[i]), h, Take(n - |h|, rest));
    OneHead(lists, names, i);
  }

  lemma ShareWithinRound(lists: seq<seq<Row>>, names: seq<string>, n: int, i: nat)
    requires Tagged(lists, names) && i < |lists| && (n <= |Heads(lists)| || Heads(lists) == [])
    ensures Share(names[i], Take(n, Rounds(lists))) <= Head(lists[i])
  {
    var h := Heads(lists);
    if n > 0 && h != [] {
      assert Take(n, Rounds(lists)) == h[..n];
      ShareOfHeads(lists, names, i, n);
    }
  }

  lemma HeadThenTail(l: seq<Row>, p: seq<Row>)
    requires p <= Tail(l)
    ensures Head(l) + p <= l
  {}

  /** Every group contributes an initial run of its own list. */
  lemma {:induction false} ShareIsPrefix(lists: seq<seq<Row>>, names: seq<string>, n: int, i: nat)
    requires Tagged(lists, names) && i < |lists|
    ensures Share(names[i], Take(n, Rounds(lists))) <= lists[i]
    decreases Total(lists)
  {
    HeadsAndTails(lists);
    if n <= |Heads(lists)| || Heads(lists) == [] {
      ShareWithinRound(lists, names, n, i);
      HeadThenTail(lists[i], []);
    } else {
      ShareStep(lists, names, n, i);
      TailsTagged(lists, names);
      TailsAt(lists, i);
      ShareIsPrefix(Tails(lists), names, n - |Heads(lists)|, i);
      HeadThenTail(lists[i], Share(names[i], Take(n - |Heads(lists)|, Rounds(Tails(lists)))));
    }
  }

  /** Round-robin fairness: a group two or more behind another has nothing left. */
  lemma {:induction false} FairShares(lists: seq<seq<Row>>, names: seq<string>, n: int, i: nat, j: nat)
    requires Tagged(lists, names) && i < |lists| && j < |lists|
    requires |Share(names[i], Take(n, Rounds(lists)))| >= |Share(names[j], Take(n, Rounds(lists)))| + 2
    ensures Share(names[j], Take(n, Rounds(lists))) == lists[j]
    decreases Total(lists)
  {
    HeadsAndTails(lists);
    ShareIsPrefix(lists, names, n, j);
    if n <= |Heads(lists)| || Heads(lists) == [] {
      ShareWithinRound(lists, names, n, i);
    } else {
      ShareStep(lists, names, n, i);
      ShareStep(lists, names, n, j);
      TailsTagged(lists, names);
      TailsAt(lists, i);
      TailsAt(lists, j);
      if lists[j] != [] {
        FairShares(Tails(lists), names, n - |Heads(lists)|, i, j);
      }
    }
  }

  lemma {:induction false} GroupedTagged(rows: seq<Row>, names: seq<string>)
    requires Distinct(names)
    ensures Tagged(GroupedBy(rows, names), names)
  {
    if names != [] {
      GroupedTagged(rows, names[1..]);
      FilterMembers(InGroup(names[0]), rows);
    }
  }

  lemma SliceTagged(eligible: seq<Row>, key: string -> int, names: seq<string>)
    requires Distinct(names)
    ensures Tagged(SortEach(RowsByKey(key), GroupedBy(eligible, names)), names)
  {
    var grouped := GroupedBy(eligible, names);
    GroupedTagged(eligible, names);
    SortEachPermutes(RowsByKey(key), grouped);
    forall i: int, r: Row | 0 <= i < |grouped| && r in SortEach(RowsByKey(key), grouped)[i]
      ensures r.group == names[i]
    {
      SortMembers(RowsByKey(key), grouped[i]);
    }
  }

  /** For the slice: the shares of two repositories differ by two or more only when
      the smaller one has been used up. */
  lemma SliceIsFair(rows: seq<Row>, count: int, exclude: set<string>, key: string -> int, g: string, h: string)
    requires var eligible := Filter(NotExcluded(exclude), rows); g in GroupNames(eligible) && h in GroupNames(eligible)
    requires var s := Take(count, Rounds(SliceLists(rows, exclude, key))); |Share(g, s)| >= |Share(h, s)| + 2
    ensures var s := Take(count, Rounds(SliceLists(rows, exclude, key)));
            forall r :: r in rows && r.id !in exclude && r.group == h ==> r in s
  {
    var eligible := Filter(NotExcluded(exclude), rows);
    var names := StableSort(ByKey(key), Dedup(GroupNames(eligible)));
    var s := Take(count, Rounds(SliceLists(rows, exclude, key)));
    SliceNames(eligible, key);
    SliceTagged(eligible, key, names);
    var i :| 0 <= i < |names| && names[i] == g;
    var j :| 0 <= j < |names| && names[j] == h;
    FairShares(SliceLists(rows, exclude, key), names, count, i, j);
    GroupedAt(eligible, names, j);
    SortEachPermutes(RowsByKey(key), GroupedBy(eligible, names));
    assert Share(h, s) == StableSort(RowsByKey(key), Filter(InGroup(h), eligible));
    UsedUp(eligible, s, key, h);
    FilterMembers(NotExcluded(exclude), rows);
  }

  lemma UsedUp(eligible: seq<Row>, s: seq<Row>, key: string -> int, h: string)
    requires Share(h, s) == StableSort(RowsByKey(key), Filter(InGroup(h), eligible))
    ensures forall r :: r in eligible && r.group == h ==> r in s
  {
    FilterMembers(InGroup(h), eligible);
    SortMembers(RowsByKey(key), Filter(InGroup(h), eligible));
    FilterMembers(InGroup(h), s);
  }

  lemma {:induction false} GroupedAt(rows: seq<Row>, names: seq<string>, i: nat)
    requires i < |names|
    ensures i < |GroupedBy(rows, names)| && GroupedBy(rows, names)[i] == Filter(InGroup(names[i]), rows)
  {
    if i > 0 { GroupedAt(rows, names[1..], i - 1); }
  }

  lemma StratifiedIsFair(rows: seq<Row>, limit: int, g: string, h: string)
    requires g in GroupNames(rows) && h in GroupNames(rows)
    requires var s := Take(limit, Rounds(StratifiedLists(rows))); |Share(g, s)| >= |Share(h, s)| + 2
    ensures var s := Take(limit, Rounds(StratifiedLists(rows))); forall r :: r in rows && r.group == h ==> r in s
  {
    var names := Text.SortedNames(GroupNames(rows));
    var s := Take(limit, Rounds(StratifiedLists(rows)));
    Text.SortedNamesMembers(GroupNames(rows));
    GroupedTagged(rows, names);
    var i :| 0 <= i < |names| && names[i] == g;
    var j :| 0 <= j < |names| && names[j] == h;
    FairShares(StratifiedLists(rows), names, limit, i, j);
    GroupedAt(rows, names, j);
    FilterMembers(InGroup(h), rows);
    FilterMembers(InGroup(h), s);
  }

  // ----- order independence -----

  ghost predicate Injective(key: string -> int) {
    forall a, b :: key(a) == key(b) ==> a == b
  }

  lemma {:induction false} NamesFromRows(rows: seq<Row>, g: string)
    ensures g in GroupNames(rows) <==> exists r :: r in rows && r.group == g
  {
    if rows != [] {
      var init, last := rows[..|rows| - 1], rows[|rows| - 1];
      NamesFromRows(init, g);
      assert rows == init + [last];
      assert last in rows;
    }
  }

  /** Under a collision-free hash the order of the input leaves no trace. */
  lemma SliceIgnoresOrder(rows: seq<Row>, rows': seq<Row>, exclude: set<string>, key: string -> int)
    requires Injective(key) && multiset(rows) == multiset(rows')
    requires forall r, r' :: r in rows && r' in rows && r.id == r'.id ==> r == r'
    ensures SliceLists(rows, exclude, key) == SliceLists(rows', exclude, key)
  {
    var e, e' := Filter(NotExcluded(exclude), rows), Filter(NotExcluded(exclude), rows');
    FilterPermutes(NotExcluded(exclude), rows, rows');
    SameMultiset(e, e');
    FilterMembers(NotExcluded(exclude), rows);
    forall g ensures g in GroupNames(e) <==> g in GroupNames(e') {
      NamesFromRows(e, g);
      NamesFromRows(e', g);
    }
    var d, d' := Dedup(GroupNames(e)), Dedup(GroupNames(e'));
    DistinctSameMembers(d, d');
    SortIgnoresOrder(ByKey(key), d, d');
    ListsIgnoreOrder(e, e', StableSort(ByKey(key), d), key);
  }

  lemma {:induction false} ListsIgnoreOrder(e: seq<Row>, e': seq<Row>, names: seq<string>, key: string -> int)
    requires Injective(key) && multiset(e) == multiset(e')
    requires forall r, r' :: r in e && r' in e && r.id == r'.id ==> r == r'
    ensures SortEach(RowsByKey(key), GroupedBy(e, names)) == SortEach(RowsByKey(key), GroupedBy(e', names))
  {
    if names != [] {
      FilterPermutes(InGroup(names[0]), e, e');
      FilterMembers(InGroup(names[0]), e);
      SortIgnoresOrder(RowsByKey(key), Filter(InGroup(names[0]), e), Filter(InGroup(names[0]), e'));
      ListsIgnoreOrder(e, e', names[1..], key);
    }
  }

  // ----- in which order -----

  /** The lists that still have a row, in order. */
  lemma {:induction false} HeadsInOrder(lists: seq<seq<Row>>) returns (at: seq<nat>)
    ensures HeadsAt(lists, at)
  {
    if lists == [] {
      at := [];
    } else {
      var init, last := lists[..|lists| - 1], lists[|lists| - 1];
      assert lists == init + [last];
      HeadsSnoc(init, last);
      at := HeadsInOrder(init);
      if last != [] { at := at + [|init|]; }
    }
  }

  /** A turn: which row of which list. */
  datatype Turning = Turning(round: nat, list: nat)

  predicate TurnsBefore(a: Turning, b: Turning) {
    a.round < b.round || (a.round == b.round && a.list < b.list)
  }

  /** The turn is taken: the list has a row for that round. */
  predicate Taken(lists: seq<seq<Row>>, t: Turning) {
    t.list < |lists| && t.round < |lists[t.list]|
  }

  ghost predicate RowsOfTurns(lists: seq<seq<Row>>, turns: seq<Turning>, selected: seq<Row>) {
    && |turns| == |selected|
    && (forall k :: 0 <= k < |turns| ==>
          Taken(lists, turns[k]) && selected[k] == lists[turns[k].list][turns[k].round])
  }

  ghost predicate TurnsAscend(turns: seq<Turning>) {
    forall k, m :: 0 <= k < m < |turns| ==> TurnsBefore(turns[k], turns[m])
  }

  /** The selected rows follow the turns: all that are taken, round by round, and in a
      round list by list. */
  ghost predicate Follows(lists: seq<seq<Row>>, turns: seq<Turning>, selected: seq<Row>) {
    && RowsOfTurns(lists, turns, selected) && TurnsAscend(turns)
    && (forall t :: Taken(lists, t) ==> t in turns)
  }

  function Later(turns: seq<Turning>): seq<Turning> {
    seq(|turns|, k requires 0 <= k < |turns| => Turning(turns[k].round + 1, turns[k].list))
  }

  function FirstRound(at: seq<nat>): seq<Turning> {
    seq(|at|, k requires 0 <= k < |at| => Turning(0, at[k]))
  }

  /** The rounds take the rows in the order of the turns. */
  lemma {:induction false} RoundsInOrder(lists: seq<seq<Row>>) returns (turns: seq<Turning>)
    ensures Follows(lists, turns, Rounds(lists))
    decreases Total(lists)
  {
    HeadsAndTails(lists);
    if Heads(lists) == [] {
      turns := [];
      forall t ensures !Taken(lists, t) {
        if t.list < |lists| && lists[t.list] != [] { NothingLeft(lists, t.list); }
      }
    } else {
      var at := HeadsInOrder(lists);
      var rest := RoundsInOrder(Tails(lists));
      turns := FirstRound(at) + Later(rest);
      OneRound(lists, at, rest);
    }
  }

  lemma {:induction false} NothingLeft(lists: seq<seq<Row>>, j: nat)
    requires j < |lists| && Heads(lists) == []
    ensures lists[j] == []
  {
    if j > 0 { NothingLeft(lists[1..], j - 1); }
  }

  /** at lists the lists that still have a row. */
  ghost predicate HeadsAt(lists: seq<seq<Row>>, at: seq<nat>) {
    && |at| == |Heads(lists)|
    && (forall k :: 0 <= k < |at| ==> at[k] < |lists| && lists[at[k]] != [] && Heads(lists)[k] == lists[at[k]][0])
    && (forall j: nat :: j < |lists| && lists[j] != [] ==> j in at)
    && (forall k, m :: 0 <= k < m < |at| ==> at[k] < at[m])
  }

  lemma LaterRows(lists: seq<seq<Row>>, rest: seq<Turning>)
    requires RowsOfTurns(Tails(lists), rest, Rounds(Tails(lists)))
    ensures RowsOfTurns(lists, Later(rest), Rounds(Tails(lists)))
  {
    var later := Later(rest);
    forall k | 0 <= k < |rest|
      ensures Taken(lists, later[k]) && Rounds(Tails(lists))[k] == lists[later[k].list][later[k].round]
    {
      TailsAt(lists, rest[k].list);
      assert Taken(Tails(lists), rest[k]);
    }
  }

  lemma {:induction false} RowsConcat(lists: seq<seq<Row>>, a: seq<Turning>, x: seq<Row>, b: seq<Turning>, y: seq<Row>)
    requires RowsOfTurns(lists, a, x) && RowsOfTurns(lists, b, y)
    ensures RowsOfTurns(lists, a + b, x + y)
  {}

  lemma {:induction false} TurnsConcat(at: seq<nat>, rest: seq<Turning>)
    requires (forall k, m :: 0 <= k < m < |at| ==> at[k] < at[m]) && TurnsAscend(rest)
    ensures TurnsAscend(FirstRound(at) + Later(rest))
  {
    var first, later := FirstRound(at), Later(rest);
    forall k, m | 0 <= k < m < |first + later| ensures TurnsBefore((first + later)[k], (first + later)[m]) {
      if k >= |first| { assert TurnsBefore(rest[k - |first|], rest[m - |first|]); }
    }
  }

  lemma OneRound(lists: seq<seq<Row>>, at: seq<nat>, rest: seq<Turning>)
    requires Heads(lists) != [] && HeadsAt(lists, at) && Follows(Tails(lists), rest, Rounds(Tails(lists)))
    ensures Follows(lists, FirstRound(at) + Later(rest), Rounds(lists))
  {
    var first, later := FirstRound(at), Later(rest);
    HeadsAndTails(lists);
    LaterRows(lists, rest);
    assert RowsOfTurns(lists, first, Heads(lists));
    RowsConcat(lists, first, Heads(lists), later, Rounds(Tails(lists)));
    TurnsConcat(at, rest);
    forall t | Taken(lists, t) ensures t in first + later {
      TurnIsThere(lists, at, rest, t);
    }
  }

  lemma {:induction false} TurnIsThere(lists: seq<seq<Row>>, at: seq<nat>, rest: seq<Turning>, t: Turning)
    requires Taken(lists, t) && (t.list in at || lists[t.list] == [])
    requires forall u :: Taken(Tails(lists), u) ==> u in rest
    ensures t in FirstRound(at) + Later(rest)
  {
    var first, later := FirstRound(at), Later(rest);
    if t.round == 0 {
      var k :| 0 <= k < |at| && at[k] == t.list;
      assert first[k] == t && t in first;
    } else {
      TailsAt(lists, t.list);
      assert Taken(Tails(lists), Turning(t.round - 1, t.list));
      var k :| 0 <= k < |rest| && rest[k] == Turning(t.round - 1, t.list);
      assert later[k] == t && t in later;
    }
  }

  /** The eligible rows of one repository, in ascending order of the hash. */
  ghost predicate SliceList(rows: seq<Row>, exclude: set<string>, key: string -> int, g: string, l: seq<Row>) {
    && (forall r :: r in l <==> r in rows && r.id !in exclude && r.group == g)
    && (forall k, m :: 0 <= k < m < |l| ==> key(l[k].id) <= key(l[m].id))
  }

  /** The lists of the slice: one for each repository with an eligible row, in
      ascending order of the hash. */
  lemma SliceListsInOrder(rows: seq<Row>, exclude: set<string>, key: string -> int) returns (names: seq<string>)
    ensures var lists := SliceLists(rows, exclude, key);
            && |lists| == |names| && Distinct(names)
            && (forall g :: g in names <==> exists r :: r in rows && r.id !in exclude && r.group == g)
            && (forall i, j :: 0 <= i < j < |names| ==> key(names[i]) <= key(names[j]))
            && (forall i :: 0 <= i < |lists| ==> SliceList(rows, exclude, key, names[i], lists[i]))
  {
    var eligible := Filter(NotExcluded(exclude), rows);
    names := StableSort(ByKey(key), Dedup(GroupNames(eligible)));
    var lists := SliceLists(rows, exclude, key);
    SliceNames(eligible, key);
    FilterMembers(NotExcluded(exclude), rows);
    SortSorts(ByKey(key), Dedup(GroupNames(eligible)));
    SortEachPermutes(RowsByKey(key), GroupedBy(eligible, names));
    GroupedLength(eligible, names);
    forall g ensures g in names <==> exists r :: r in rows && r.id !in exclude && r.group == g {
      NamesFromRows(eligible, g);
    }
    forall i, j | 0 <= i < j < |names| ensures key(names[i]) <= key(names[j]) {
      assert ByKey(key)(names[i], names[j]);
    }
    forall i | 0 <= i < |lists| ensures SliceList(rows, exclude, key, names[i], lists[i]) {
      GroupedAt(eligible, names, i);
      SliceListMeaning(rows, exclude, key, names[i]);
    }
  }

  lemma {:induction false} GroupedLength(rows: seq<Row>, names: seq<string>)
    ensures |GroupedBy(rows, names)| == |names|
  {
    if names != [] { GroupedLength(rows, names[1..]); }
  }

  lemma SliceListMeaning(rows: seq<Row>, exclude: set<string>, key: string -> int, g: string)
    ensures SliceList(rows, exclude, key, g,
                      StableSort(RowsByKey(key), Filter(InGroup(g), Filter(NotExcluded(exclude), rows))))
  {
    var eligible := Filter(NotExcluded(exclude), rows);
    var ours := Filter(InGroup(g), eligible);
    var l := StableSort(RowsByKey(key), ours);
    FilterMembers(NotExcluded(exclude), rows);
    FilterMembers(InGroup(g), eligible);
    SortMembers(RowsByKey(key), ours);
    SortSorts(RowsByKey(key), ours);
    forall k, m | 0 <= k < m < |l| ensures key(l[k].id) <= key(l[m].id) {
      assert RowsByKey(key)(l[k], l[m]);
    }
  }

  /** The first row of the slice: in the repository of least hash the row of least hash. */
  lemma {:induction false} SliceBegins(rows: seq<Row>, count: int, exclude: set<string>, key: string -> int, r: Row)
    requires count > 0 && r in rows && r.id !in exclude
    ensures var selected := Take(count, Rounds(SliceLists(rows, exclude, key)));
            && selected != []
            && key(selected[0].group) <= key(r.group)
            && (selected[0].group == r.group ==> key(selected[0].id) <= key(r.id))
  {
    var lists := SliceLists(rows, exclude, key);
    var names := SliceListsInOrder(rows, exclude, key);
    assert r.group in names;
    var i :| 0 <= i < |names| && names[i] == r.group;
    assert SliceList(rows, exclude, key, names[i], lists[i]);
    var turns := RoundsInOrder(lists);
    FirstTurn(rows, exclude, key, lists, names, turns, r, i);
  }

  lemma {:induction false} FirstTurn(rows: seq<Row>, exclude: set<string>, key: string -> int, lists: seq<seq<Row>>,
                                     names: seq<string>, turns: seq<Turning>, r: Row, i: nat)
    requires |lists| == |names| && i < |names| && names[i] == r.group && r in lists[i]
    requires forall i, j :: 0 <= i < j < |names| ==> key(names[i]) <= key(names[j])
    requires forall i :: 0 <= i < |lists| ==> SliceList(rows, exclude, key, names[i], lists[i])
    requires Distinct(names) && Follows(lists, turns, Rounds(lists))
    ensures Rounds(lists) != []
    ensures key(Rounds(lists)[0].group) <= key(r.group)
    ensures Rounds(lists)[0].group == r.group ==> key(Rounds(lists)[0].id) <= key(r.id)
  {
    var k :| 0 <= k < |lists[i]| && lists[i][k] == r;
    assert Taken(lists, Turning(0, i)) && Turning(0, i) in turns;
    var first := turns[0];
    assert first == Turning(0, i) || TurnsBefore(first, Turning(0, i));
    assert first.round == 0 && first.list <= i;
    assert lists[first.list][0] in lists[first.list];
  }

  /** The lists of the stratified sample: one for each intent, in dictionary order, and
      in each its rows in the order of the file. */
  lemma StratifiedListsInOrder(rows: seq<Row>) returns (names: seq<string>)
    ensures var lists := StratifiedLists(rows);
            && |lists| == |names|
            && (forall g :: g in names <==> exists r :: r in rows && r.group == g)
            && (forall i, j :: 0 <= i < j < |names| ==> Text.Precedes(names[i], names[j]))
            && (forall i :: 0 <= i < |lists| ==> lists[i] == Filter((r: Row) => r.group == names[i], rows))
  {
    names := Text.SortedNames(GroupNames(rows));
    Text.SortedNamesMembers(GroupNames(rows));
    Text.LeqIsOrder();
    SortSorts(Text.LEQ, Dedup(GroupNames(rows)));
    GroupedLength(rows, names);
    forall g ensures g in names <==> exists r :: r in rows && r.group == g { NamesFromRows(rows, g); }
    forall i, j | 0 <= i < j < |names| ensures Text.Precedes(names[i], names[j]) {
      assert Text.LEQ(names[i], names[j]);
      Text.LeqMeaning(names[i], names[j]);
    }
    forall i | 0 <= i < |names| ensures StratifiedLists(rows)[i] == Filter((r: Row) => r.group == names[i], rows) {
      GroupedAt(rows, names, i);
      FilterAgree(InGroup(names[i]), (r: Row) => r.group == names[i], rows);
    }
  }
}
