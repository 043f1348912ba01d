/** The timeline's run-length grouping of tool entries: `groupToolEntries`. */
module ToolGroups {
  import opened Sequences

  datatype ToolEntry = ToolEntry(key: string, turnId: string, timestamp: string)

  datatype Entry =
    | Tool(tool: ToolEntry)
    | Group(key: string, timestamp: string, tools: seq<ToolEntry>)
    | Other(key: string, timestamp: string)

  function MakeGroup(tools: seq<ToolEntry>): Entry
    requires tools != []
  {
    Group("tool-group:" + tools[0].turnId + ":" + tools[0].key, tools[0].timestamp, tools)
  }

  function AsTools(tools: seq<ToolEntry>): seq<Entry> {
    if tools == [] then [] else [Tool(tools[0])] + AsTools(tools[1..])
  }

  function Expand(e: Entry): seq<Entry> {
    if e.Group? then AsTools(e.tools) else [e]
  }

  function Flatten(entries: seq<Entry>): seq<Entry> {
    if entries == [] then [] else Expand(entries[0]) + Flatten(entries[1..])
  }

  lemma {:induction false} FlattenConcat(a: seq<Entry>, b: seq<Entry>)
    ensures Flatten(a + b) == Flatten(a) + Flatten(b)
  {
    if a == [] {
      assert a + b == b;
    } else {
      assert (a + b)[1..] == a[1..] + b;
      FlattenConcat(a[1..], b);
    }
  }

  lemma FlattenSnoc(a: seq<Entry>, e: Entry)
    ensures Flatten(a + [e]) == Flatten(a) + Expand(e)
  {
    FlattenConcat(a, [e]);
    assert Flatten([e]) == Expand(e) + Flatten([]);
  }

  lemma {:induction false} AsToolsSnoc(tools: seq<ToolEntry>, t: ToolEntry)
    ensures AsTools(tools + [t]) == AsTools(tools) + [Tool(t)]
  {
    if tools != [] {
      assert (tools + [t])[1..] == tools[1..] + [t];
      AsToolsSnoc(tools[1..], t);
    }
  }

  // ----- the batch definition -----

  /** How many leading entries are tools of the first one's turn. */
  function SameTurn(turn: string, entries: seq<Entry>): nat {
    if entries != [] && entries[0].Tool? && entries[0].tool.turnId == turn
    then 1 + SameTurn(turn, entries[1..]) else 0
  }

  /** The turn whose tools an entry holds, if it holds any. */
  function TurnOf(e: Entry): Option<string> {
    if e.Tool? then Some(e.tool.turnId)
    else if e.Group? && e.tools != [] then Some(e.tools[0].turnId)
    else None
  }

  /** How many leading entries belong together: the first one, which may be a group
      already, and the tools of its turn right behind it. */
  function RunLength(entries: seq<Entry>): (n: nat)
    requires entries != []
    ensures n >= 1
  {
    match TurnOf(entries[0])
    case None => 1
    case Some(turn) => 1 + SameTurn(turn, entries[1..])
  }

  lemma {:induction false} SameTurnBound(turn: string, entries: seq<Entry>)
    ensures SameTurn(turn, entries) <= |entries|
    ensures forall i :: 0 <= i < SameTurn(turn, entries) ==> entries[i].Tool?
  {
    if entries != [] && entries[0].Tool? && entries[0].tool.turnId == turn {
      SameTurnBound(turn, entries[1..]);
      assert entries == [entries[0]] + entries[1..];
    }
  }

  function ToolsOf(entries: seq<Entry>): seq<ToolEntry> {
    if entries == [] then []
    else if entries[0].Tool? then [entries[0].tool] + ToolsOf(entries[1..])
    else ToolsOf(entries[1..])
  }

  /** The entry that stands for a run: a tool becomes a group with those behind it, and
      a group takes them in. */
  function WithTools(first: Entry, more: seq<ToolEntry>): Entry {
    if more == [] then first
    else match first
      case Tool(tool) => MakeGroup([tool] + more)
      case Group(_, _, tools) => first.(tools := tools + more)
      case Other(_, _) => first
  }

  /** Cut the entries into maximal runs and let one entry stand for each. */
  function Partition(entries: seq<Entry>): seq<Entry>
    decreases |entries|
  {
    if entries == [] then [] else
      var n := RunLength(entries);
      RunFits(entries);
      [WithTools(entries[0], ToolsOf(entries[1..n]))] + Partition(entries[n..])
  }

  lemma RunFits(entries: seq<Entry>)
    requires entries != []
    ensures RunLength(entries) <= |entries|
  {
    if TurnOf(entries[0]).Some? { SameTurnBound(TurnOf(entries[0]).value, entries[1..]); }
  }

  // ----- what grouping leaves behind -----

  ghost predicate WellMade(e: Entry) {
    e.Group? ==>
      && |e.tools| >= 2 && e == MakeGroup(e.tools)
      && forall i :: 0 <= i < |e.tools| ==> e.tools[i].turnId == e.tools[0].turnId
  }

  predicate Apart(a: Entry, b: Entry) {
    TurnOf(a) == None || TurnOf(a) != TurnOf(b)
  }

  /** Well-made groups, and no two neighbours that belong together. */
  ghost predicate Canonical(grouped: seq<Entry>) {
    && (forall i :: 0 <= i < |grouped| ==> WellMade(grouped[i]))
    && (forall i, j :: 0 <= i && j == i + 1 && j < |grouped| ==> Apart(grouped[i], grouped[j]))
  }

  /** Putting one more tool into the last entry. */
  lemma AbsorbFlatten(init: seq<Entry>, last: Entry, e: Entry, t: ToolEntry)
    requires Expand(e) == Expand(last) + [Tool(t)]
    ensures Flatten(init + [e]) == Flatten(init + [last]) + [Tool(t)]
  {
    FlattenSnoc(init, last);
    FlattenSnoc(init, e);
    Reassociate(Flatten(init), Expand(last), [Tool(t)]);
  }

  lemma AbsorbCanonical(init: seq<Entry>, last: Entry, e: Entry)
    requires Canonical(init + [last]) && WellMade(e) && TurnOf(e) == TurnOf(last)
    ensures Canonical(init + [e])
  {
    var r, q := init + [e], init + [last];
    forall i | 0 <= i < |r| ensures WellMade(r[i]) {
      if i < |init| { assert r[i] == q[i]; }
    }
    forall i, j | 0 <= i && j == i + 1 && j < |r| ensures Apart(r[i], r[j]) {
      assert Apart(q[i], q[j]);
      assert r[i] == q[i];
    }
  }

  lemma AbsorbIntoGroup(init: seq<Entry>, last: Entry, t: ToolEntry)
    requires last.Group? && last.tools != [] && last.tools[0].turnId == t.turnId
    ensures var more := last.(tools := last.tools + [t]);
            && Flatten(init + [more]) == Flatten(init + [last]) + [Tool(t)]
            && (Canonical(init + [last]) ==> Canonical(init + [more]))
  {
    var more := last.(tools := last.tools + [t]);
    AsToolsSnoc(last.tools, t);
    AbsorbFlatten(init, last, more, t);
    if Canonical(init + [last]) {
      assert (init + [last])[|init|] == last;
      AbsorbCanonical(init, last, more);
    }
  }

  lemma AbsorbIntoTool(init: seq<Entry>, last: Entry, t: ToolEntry)
    requires last.Tool? && last.tool.turnId == t.turnId
    ensures var pair := MakeGroup([last.tool, t]);
            && Flatten(init + [pair]) == Flatten(init + [last]) + [Tool(t)]
            && (Canonical(init + [last]) ==> Canonical(init + [pair]))
  {
    FlattenPair(last.tool, t);
    AbsorbFlatten(init, last, MakeGroup([last.tool, t]), t);
    if Canonical(init + [last]) {
      AbsorbCanonical(init, last, MakeGroup([last.tool, t]));
    }
  }

  lemma PushApart(grouped: seq<Entry>, e: Entry)
    requires Canonical(grouped) && !e.Group?
    requires grouped != [] ==> Apart(grouped[|grouped| - 1], e)
    ensures Canonical(grouped + [e])
  {
    var r := grouped + [e];
    forall i | 0 <= i < |r| ensures WellMade(r[i]) {
      if i < |grouped| { assert r[i] == grouped[i]; }
    }
    forall i, j | 0 <= i && j == i + 1 && j < |r| ensures Apart(r[i], r[j]) {
      assert r[i] == grouped[i];
      if j < |grouped| { assert r[j] == grouped[j]; }
    }
  }

  predicate Ungrouped(entries: seq<Entry>) {
    forall i :: 0 <= i < |entries| ==> !entries[i].Group?
  }

  // ----- the online step -----

  /** Whether the tool goes into the entry before it. */
  predicate Joins(previous: Entry, e: Entry) {
    e.Tool? && TurnOf(previous) == Some(e.tool.turnId)
  }

  /** What one turn of the loop makes of the result so far. */
  function Placed(grouped: seq<Entry>, e: Entry): seq<Entry> {
    if grouped != [] && Joins(grouped[|grouped| - 1], e)
    then grouped[..|grouped| - 1] + [WithTools(grouped[|grouped| - 1], [e.tool])]
    else grouped + [e]
  }

  lemma JoinLast(init: seq<Entry>, last: Entry, t: ToolEntry)
    requires Joins(last, Tool(t))
    ensures var joined := WithTools(last, [t]);
            && Flatten(init + [joined]) == Flatten(init + [last]) + [Tool(t)]
            && (Canonical(init + [last]) ==> Canonical(init + [joined]))
  {
    if last.Tool? {
      assert [last.tool] + [t] == [last.tool, t];
      AbsorbIntoTool(init, last, t);
    } else {
      AbsorbIntoGroup(init, last, t);
    }
  }

  lemma FlattenPlaced(grouped: seq<Entry>, e: Entry)
    ensures Flatten(Placed(grouped, e)) == Flatten(grouped) + Expand(e)
  {
    if grouped != [] && Joins(grouped[|grouped| - 1], e) {
      var init, last := grouped[..|grouped| - 1], grouped[|grouped| - 1];
      assert grouped == init + [last];
      JoinLast(init, last, e.tool);
    } else {
      FlattenSnoc(grouped, e);
    }
  }

  lemma CanonicalPlaced(grouped: seq<Entry>, e: Entry)
    requires Canonical(grouped) && !e.Group?
    ensures Canonical(Placed(grouped, e))
  {
    if grouped != [] && Joins(grouped[|grouped| - 1], e) {
      var init, last := grouped[..|grouped| - 1], grouped[|grouped| - 1];
      assert grouped == init + [last];
      JoinLast(init, last, e.tool);
    } else {
      PushApart(grouped, e);
    }
  }

  lemma {:induction false} SameTurnSnoc(turn: string, entries: seq<Entry>, e: Entry)
    ensures SameTurn(turn, entries) <= |entries|
    ensures SameTurn(turn, entries + [e]) ==
            if SameTurn(turn, entries) < |entries| then SameTurn(turn, entries)
            else |entries| + if e.Tool? && e.tool.turnId == turn then 1 else 0
  {
    if entries == [] {
      assert entries + [e] == [e] && [e][1..] == [];
    } else {
      assert (entries + [e])[1..] == entries[1..] + [e];
      SameTurnSnoc(turn, entries[1..], e);
    }
  }

  lemma {:induction false} RunLengthSnoc(entries: seq<Entry>, e: Entry)
    requires entries != []
    ensures RunLength(entries) <= |entries|
    ensures RunLength(entries + [e]) ==
            if RunLength(entries) < |entries| || !Joins(entries[0], e) then RunLength(entries) else |entries| + 1
  {
    assert (entries + [e])[1..] == entries[1..] + [e];
    if TurnOf(entries[0]).Some? {
      SameTurnSnoc(TurnOf(entries[0]).value, entries[1..], e);
    }
  }

  lemma {:induction false} ToolsSnoc(entries: seq<Entry>, t: ToolEntry)
    ensures ToolsOf(entries + [Tool(t)]) == ToolsOf(entries) + [t]
  {
    if entries == [] {
      assert entries + [Tool(t)] == [Tool(t)] && [Tool(t)][1..] == [];
    } else {
      assert (entries + [Tool(t)])[1..] == entries[1..] + [Tool(t)];
      ToolsSnoc(entries[1..], t);
    }
  }

  /** Taking tools in one at a time, the entry keeps its turn. */
  lemma WithToolsMore(first: Entry, more: seq<ToolEntry>, t: ToolEntry)
    requires TurnOf(first).Some?
    ensures TurnOf(WithTools(first, more)) == TurnOf(first)
    ensures WithTools(WithTools(first, more), [t]) == WithTools(first, more + [t])
  {
    match first
    case Tool(tool) => Reassociate([tool], more, [t]);
    case Group(_, _, tools) => Reassociate(tools, more, [t]);
    case Other(_, _) =>
  }

  lemma {:induction false} PartitionOne(e: Entry)
    ensures Partition([e]) == [e]
  {
    assert [e][1..] == [];
    RunFits([e]);
    assert [e][1..RunLength([e])] == [];
  }

  /** Cutting off a run of known length. */
  lemma {:induction false} PartitionCut(entries: seq<Entry>, n: nat, more: seq<Entry>, rest: seq<Entry>)
    requires entries != [] && RunLength(entries) == n <= |entries|
    requires entries[1..n] == more && entries[n..] == rest
    ensures Partition(entries) == [WithTools(entries[0], ToolsOf(more))] + Partition(rest)
  {}

  /** The entries are one run, and the next one joins it. */
  lemma {:induction false} PartitionJoin(entries: seq<Entry>, e: Entry)
    requires entries != [] && RunLength(entries) == |entries| && Joins(entries[0], e)
    ensures Partition(entries + [e]) == [WithTools(WithTools(entries[0], ToolsOf(entries[1..])), [e.tool])]
  {
    var longer := entries + [e];
    RunLengthSnoc(entries, e);
    ToolsSnoc(entries[1..], e.tool);
    WithToolsMore(entries[0], ToolsOf(entries[1..]), e.tool);
    PartitionCut(longer, |longer|, entries[1..] + [e], []);
  }

  /** The entries are one run, and the next one starts another. */
  lemma {:induction false} PartitionNext(entries: seq<Entry>, e: Entry)
    requires entries != [] && RunLength(entries) == |entries| && !Joins(entries[0], e)
    ensures Partition(entries + [e]) == [WithTools(entries[0], ToolsOf(entries[1..]))] + [e]
  {
    RunLengthSnoc(entries, e);
    PartitionOne(e);
    PartitionCut(entries + [e], |entries|, entries[1..], [e]);
  }

  lemma SameTurnAfter(first: Entry, more: seq<ToolEntry>)
    ensures TurnOf(WithTools(first, more)) == TurnOf(first) || (TurnOf(first) == None && more != [])
  {}

  lemma PlacedOne(h: Entry, e: Entry)
    ensures Placed([h], e) == if Joins(h, e) then [WithTools(h, [e.tool])] else [h] + [e]
  {
    assert [h][..0] == [] && [] + [WithTools(h, [])] == [WithTools(h, [])];
  }

  lemma {:induction false} PartitionOfRun(entries: seq<Entry>, e: Entry)
    requires entries != [] && RunLength(entries) == |entries|
    ensures Partition(entries + [e]) == Placed(Partition(entries), e)
  {
    var first, tools := entries[0], ToolsOf(entries[1..]);
    PartitionCut(entries, |entries|, entries[1..], []);
    assert Partition(entries) == [WithTools(first, tools)];
    PlacedOne(WithTools(first, tools), e);
    SameTurnAfter(first, tools);
    if TurnOf(first) == None { assert entries[1..] == []; }
    if Joins(first, e) { PartitionJoin(entries, e); } else { PartitionNext(entries, e); }
  }

  /** The online step is right for every input: placing one more entry into the
      partition gives the partition of the longer input. */
  lemma {:induction false} PartitionSnoc(entries: seq<Entry>, e: Entry)
    ensures Partition(entries + [e]) == Placed(Partition(entries), e)
    decreases |entries|
  {
    if entries == [] {
      assert entries + [e] == [e];
      PartitionOne(e);
    } else {
      var n := RunLength(entries);
      RunLengthSnoc(entries, e);
      if n == |entries| {
        PartitionOfRun(entries, e);
      } else {
        var head, rest, longer := WithTools(entries[0], ToolsOf(entries[1..n])), entries[n..], entries + [e];
        PartitionCut(entries, n, entries[1..n], rest);
        PartitionCut(longer, n, entries[1..n], rest + [e]);
        PartitionSnoc(rest, e);
        PlacedBehind(head, Partition(rest), e);
      }
    }
  }

  lemma PlacedBehind(head: Entry, grouped: seq<Entry>, e: Entry)
    requires grouped != []
    ensures Placed([head] + grouped, e) == [head] + Placed(grouped, e)
  {
    var all, n := [head] + grouped, |grouped|;
    assert all[..n] == [head] + grouped[..n - 1] && all[n] == grouped[n - 1];
  }

  /** Expanding the groups gives the entries back: nothing is lost or reordered. */
  lemma {:induction false} FlattenPartition(entries: seq<Entry>)
    ensures Flatten(Partition(entries)) == Flatten(entries)
  {
    if entries != [] {
      var init, e := entries[..|entries| - 1], entries[|entries| - 1];
      assert entries == init + [e];
      FlattenPartition(init);
      PartitionSnoc(init, e);
      FlattenPlaced(Partition(init), e);
      FlattenSnoc(init, e);
    }
  }

  /** From ungrouped entries the partition is canonical. */
  lemma {:induction false} PartitionIsCanonical(entries: seq<Entry>)
    requires Ungrouped(entries)
    ensures Canonical(Partition(entries))
  {
    if entries != [] {
      var init, e := entries[..|entries| - 1], entries[|entries| - 1];
      assert entries == init + [e];
      PartitionIsCanonical(init);
      PartitionSnoc(init, e);
      CanonicalPlaced(Partition(init), e);
    }
  }

  /** The online loop computes the batch partition, whatever the entries. */
  method GroupToolEntries(entries: seq<Entry>) returns (grouped: seq<Entry>)
    ensures grouped == Partition(entries)
    ensures Flatten(grouped) == Flatten(entries)
    ensures Ungrouped(entries) ==> Canonical(grouped)
  {
    grouped := [];
    for n := 0 to |entries|
      invariant grouped == Partition(entries[..n])
    {
      assert entries[..n + 1] == entries[..n] + [entries[n]];
      PartitionSnoc(entries[..n], entries[n]);
      grouped := Place(grouped, entries[n]);
    }
    assert entries[..|entries|] == entries;
    FlattenPartition(entries);
    if Ungrouped(entries) { PartitionIsCanonical(entries); }
  }

  /** One turn of the loop. */
  method Place(before: seq<Entry>, entry: Entry) returns (grouped: seq<Entry>)
    ensures grouped == Placed(before, entry)
    ensures Flatten(grouped) == Flatten(before) + Expand(entry)
  {
    FlattenPlaced(before, entry);
    if !entry.Tool? || before == [] {
      return before + [entry];
    }
    var previous := before[|before| - 1];
    if previous.Group? && previous.tools != [] && previous.tools[0].turnId == entry.tool.turnId {
      return before[..|before| - 1] + [previous.(tools := previous.tools + [entry.tool])];
    }
    if previous.Tool? && previous.tool.turnId == entry.tool.turnId {
      assert [previous.tool] + [entry.tool] == [previous.tool, entry.tool];
      return before[..|before| - 1] + [MakeGroup([previous.tool, entry.tool])];
    }
    return before + [entry];
  }

  lemma FlattenPair(a: ToolEntry, b: ToolEntry)
    ensures Expand(MakeGroup([a, b])) == [Tool(a)] + [Tool(b)]
  {
    AsToolsSnoc([a], b);
    assert [a] + [b] == [a, b];
    assert AsTools([a]) == [Tool(a)] + AsTools([]);
  }

  lemma {:induction false} AsToolsMeaning(tools: seq<ToolEntry>)
    ensures |AsTools(tools)| == |tools|
    ensures forall i :: 0 <= i < |tools| ==> AsTools(tools)[i] == Tool(tools[i])
    ensures ToolsOf(AsTools(tools)) == tools
  {
    if tools != [] {
      AsToolsMeaning(tools[1..]);
      assert AsTools(tools)[1..] == AsTools(tools[1..]);
    }
  }

  lemma {:induction false} SameTurnOfGroup(turn: string, tools: seq<ToolEntry>, rest: seq<Entry>)
    requires forall i :: 0 <= i < |tools| ==> tools[i].turnId == turn
    requires rest == [] || !(rest[0].Tool? && rest[0].tool.turnId == turn)
    ensures SameTurn(turn, AsTools(tools) + rest) == |tools|
  {
    if tools == [] {
      assert AsTools(tools) + rest == rest;
    } else {
      SameTurnOfGroup(turn, tools[1..], rest);
      assert (AsTools(tools) + rest)[1..] == AsTools(tools[1..]) + rest;
    }
  }

  /** What follows a canonical head starts a new run. */
  lemma NextRun(grouped: seq<Entry>, turn: string)
    requires Canonical(grouped) && grouped != [] && TurnOf(grouped[0]) == Some(turn)
    ensures var rest := Flatten(grouped[1..]); rest == [] || !(rest[0].Tool? && rest[0].tool.turnId == turn)
  {
    if |grouped| > 1 {
      var e := grouped[1];
      assert Apart(grouped[0], e) && WellMade(e);
      assert Flatten(grouped[1..]) == Expand(e) + Flatten(grouped[1..][1..]);
      if e.Group? {
        AsToolsMeaning(e.tools);
      }
    }
  }

  lemma CanonicalTail(grouped: seq<Entry>)
    requires Canonical(grouped) && grouped != []
    ensures Canonical(grouped[1..])
  {
    var r := grouped[1..];
    forall i, j | 0 <= i && j == i + 1 && j < |r| ensures Apart(r[i], r[j]) {
      assert Apart(grouped[i + 1], grouped[j + 1]);
    }
  }

  lemma {:induction false} PartitionHead(flat: seq<Entry>, n: nat, head: Entry)
    requires flat != [] && !flat[0].Group? && n == RunLength(flat) <= |flat|
    requires n == 1 ==> head == flat[0]
    requires n > 1 ==> head.Group? && head.tools != [] && head == MakeGroup(head.tools)
    requires n > 1 ==> head.Group? && flat[..n] == AsTools(head.tools)
    ensures Partition(flat) == [head] + Partition(flat[n..])
  {
    if n > 1 {
      AsToolsMeaning(head.tools);
      assert flat[..n][1..] == flat[1..n] && flat[..n][0] == flat[0];
      assert ToolsOf(flat[..n]) == [flat[0].tool] + ToolsOf(flat[1..n]);
    } else {
      assert flat[1..n] == [];
    }
  }

  lemma GroupHead(e: Entry, rest: seq<Entry>)
    requires e.Group? && WellMade(e)
    requires rest == [] || !(rest[0].Tool? && rest[0].tool.turnId == e.tools[0].turnId)
    ensures Partition(AsTools(e.tools) + rest) == [e] + Partition(rest)
  {
    var tools := e.tools;
    var flat := AsTools(tools) + rest;
    AsToolsMeaning(tools);
    SameTurnOfGroup(tools[0].turnId, tools[1..], rest);
    assert AsTools(tools) == [Tool(tools[0])] + AsTools(tools[1..]);
    assert flat[1..] == AsTools(tools[1..]) + rest;
    assert flat[..|tools|] == AsTools(tools) && flat[|tools|..] == rest;
    PartitionHead(flat, |tools|, e);
  }

  /** A canonical timeline is the batch partition of its own expansion: grouping
      undoes expansion. */
  lemma {:induction false} CanonicalIsPartition(grouped: seq<Entry>)
    requires Canonical(grouped)
    ensures Partition(Flatten(grouped)) == grouped
  {
    if grouped != [] {
      CanonicalTail(grouped);
      CanonicalIsPartition(grouped[1..]);
      var e, rest := grouped[0], Flatten(grouped[1..]);
      var flat := Flatten(grouped);
      assert flat == Expand(e) + rest && WellMade(e);
      match e
      case Other(_, _) =>
        assert flat[1..] == rest;
        PartitionHead(flat, 1, e);
      case Tool(t) =>
        assert flat[1..] == rest;
        NextRun(grouped, t.turnId);
        PartitionHead(flat, 1, e);
      case Group(_, _, tools) =>
        NextRun(grouped, tools[0].turnId);
        GroupHead(e, rest);
    }
  }

  // ----- what a group is -----

  /** The entry holds tools of the turn. */
  predicate HoldsTurn(e: Entry, turn: string) {
    match e
    case Tool(tool) => tool.turnId == turn
    case Group(_, _, tools) => exists i :: 0 <= i < |tools| && tools[i].turnId == turn
    case Other(_, _) => false
  }

  /** Every group of a grouped timeline: two or more tools of one turn, under a key made
      of that turn and the first tool's key, with the first tool's time. */
  lemma GroupsExactly(entries: seq<Entry>, e: Entry)
    requires Ungrouped(entries) && e in Partition(entries) && e.Group?
    ensures |e.tools| >= 2
    ensures forall i :: 0 <= i < |e.tools| ==> e.tools[i].turnId == e.tools[0].turnId
    ensures e.key == "tool-group:" + e.tools[0].turnId + ":" + e.tools[0].key
    ensures e.timestamp == e.tools[0].timestamp
  {
    PartitionIsCanonical(entries);
    var k :| 0 <= k < |Partition(entries)| && Partition(entries)[k] == e;
    assert WellMade(Partition(entries)[k]);
  }

  /** Neighbours of a grouped timeline never hold tools of one turn. */
  lemma NeighboursDiffer(entries: seq<Entry>, i: nat, turn: string)
    requires Ungrouped(entries) && i + 1 < |Partition(entries)|
    ensures !(HoldsTurn(Partition(entries)[i], turn) && HoldsTurn(Partition(entries)[i + 1], turn))
  {
    PartitionIsCanonical(entries);
    var grouped := Partition(entries);
    assert WellMade(grouped[i]) && WellMade(grouped[i + 1]) && Apart(grouped[i], grouped[i + 1]);
  }

  /** Expanding puts the tools of a group, in order, in its place and keeps the rest. */
  lemma FlattenOne(before: seq<Entry>, e: Entry, after: seq<Entry>)
    ensures Flatten(before + [e] + after) == Flatten(before) + Flatten([e]) + Flatten(after)
    ensures e.Group? ==> |Flatten([e])| == |e.tools|
    ensures e.Group? ==> forall i :: 0 <= i < |e.tools| ==> Flatten([e])[i] == Tool(e.tools[i])
    ensures !e.Group? ==> Flatten([e]) == [e]
  {
    FlattenConcat(before + [e], after);
    FlattenConcat(before, [e]);
    assert Flatten([e]) == Expand(e) + Flatten([]) && [e][1..] == [];
    if e.Group? { AsToolsMeaning(e.tools); }
  }
}
