/** The kernel object and its handles, which change their tables in place, proved
    against the registry of module Capabilities. */
module CapabilityKernel {
  import opened Sequences
  import opened Capabilities
  import opened CapabilityViews

  /** `_active` and the disposal closure.  The closure reaches back into the kernel;
      serial tells this activation from any other under the same key. */
  class ContributionHandle {
    const contribution: Contribution
    const kernel: CapabilityKernel
    ghost const serial: nat
    var active: bool

    constructor (kernel: CapabilityKernel, contribution: Contribution, ghost serial: nat)
      ensures active && this.kernel == kernel && this.contribution == contribution && this.serial == serial
    {
      this.kernel, this.contribution, this.serial := kernel, contribution, serial;
      active := true;
    }

    /** Idempotent: withdraws the contribution and releases what it activated. */
    method Dispose()
      requires kernel.Valid() && this in kernel.issued
      modifies this, kernel
      ensures kernel.Valid() && kernel.issued == old(kernel.issued)
      ensures kernel.View() == DisposeHandle(old(kernel.View()), serial)
      ensures !active
    {
      kernel.HandleLive(this);
      if !active {
        return;
      }
      active := false;
      kernel.Withdraw(KeyOf(contribution), serial);
    }
  }

  /** `dict.pop(key, None)` on the insertion-ordered table. */
  function PopKey(live: seq<Contribution>, key: Key): seq<Contribution> {
    Filter((c: Contribution) => KeyOf(c) != key, live)
  }

  /** The keys `dispose_scope` collects before it disposes anything. */
  function KeysIn(scope: Scope, live: seq<Contribution>): seq<Key> {
    if live == [] then []
    else if scope.Contains(live[0].scope) then [KeyOf(live[0])] + KeysIn(scope, live[1..])
    else KeysIn(scope, live[1..])
  }

  /** What is left once some of the entries have been disposed, one by one. */
  function AfterDisposing(s: State, gone: seq<Entry>): State {
    State(Filter((e: Entry) => e !in gone, s.entries), s.cleaned + CleanupsOf(s, gone), s.activations)
  }

  lemma {:induction false} CleanupsSnoc(s: State, gone: seq<Entry>, e: Entry)
    ensures CleanupsOf(s, gone + [e]) == CleanupsOf(s, gone) + CleanupOf(s, e.serial)
  {
    if gone != [] {
      assert (gone + [e])[1..] == gone[1..] + [e];
      CleanupsSnoc(s, gone[1..], e);
      Reassociate(CleanupOf(s, gone[0].serial), CleanupsOf(s, gone[1..]), CleanupOf(s, e.serial));
    }
  }

  lemma {:induction false} DisposeNext(s: State, gone: seq<Entry>, e: Entry)
    requires Sane(s) && e in s.entries && e !in gone
    ensures DisposeHandle(AfterDisposing(s, gone), e.serial) == AfterDisposing(s, gone + [e])
  {
    var t := AfterDisposing(s, gone);
    FilterMembers((x: Entry) => x !in gone, s.entries);
    LiveMembers(t, e.serial);
    SameSerial(s);
    FilterCompose(NotSerial(e.serial), (x: Entry) => x !in gone, (x: Entry) => x !in gone + [e], s.entries);
    CleanupsSnoc(s, gone, e);
    Reassociate(s.cleaned, CleanupsOf(s, gone), CleanupOf(s, e.serial));
  }

  lemma DisposedAll(s: State, scope: Scope)
    ensures AfterDisposing(s, Filter(Inside(scope), s.entries)) == DisposeScope(s, scope)
  {
    var inside := Filter(Inside(scope), s.entries);
    FilterMembers(Inside(scope), s.entries);
    FilterAgree((e: Entry) => e !in inside, Outside(scope), s.entries);
  }

  lemma {:induction false} KeysInMeaning(scope: Scope, entries: seq<Entry>)
    ensures LeadTo(KeysIn(scope, Contributions(entries)), Filter(Inside(scope), entries))
  {
    if entries != [] {
      KeysInMeaning(scope, entries[1..]);
      assert Contributions(entries)[1..] == Contributions(entries[1..]);
    }
  }

  // ----- the tables as values -----

  /** The kernel's tables: `_contributions` in insertion order, `_handles` and
      `_cleanups` with the number of the activation each value belongs to. */
  datatype Tables = Tables(live: seq<Contribution>, handles: map<Key, nat>, cleanups: map<Key, nat>)

  function HandleTable(entries: seq<Entry>): map<Key, nat> {
    if entries == [] then map[] else
      var e := entries[|entries| - 1];
      HandleTable(entries[..|entries| - 1])[KeyOf(e.contribution) := e.serial]
  }

  function CleanupTable(entries: seq<Entry>, activations: seq<Activation>): map<Key, nat> {
    if entries == [] then map[] else
      var e, init := entries[|entries| - 1], CleanupTable(entries[..|entries| - 1], activations);
      if e.serial < |activations| && activations[e.serial].cleanup
      then init[KeyOf(e.contribution) := e.serial] else init
  }

  /** The tables a registry state calls for. */
  function TablesOf(s: State): Tables {
    Tables(Contributions(s.entries), HandleTable(s.entries), CleanupTable(s.entries, s.activations))
  }

  function Added(t: Tables, c: Contribution, cleanup: bool, n: nat): Tables {
    Tables(t.live + [c], t.handles[KeyOf(c) := n], if cleanup then t.cleanups[KeyOf(c) := n] else t.cleanups)
  }

  function Removed(t: Tables, key: Key): Tables {
    Tables(PopKey(t.live, key), t.handles - {key}, t.cleanups - {key})
  }

  lemma {:induction false} CleanupTableGrows(entries: seq<Entry>, activations: seq<Activation>, a: Activation)
    requires forall e :: e in entries ==> e.serial < |activations|
    ensures CleanupTable(entries, activations + [a]) == CleanupTable(entries, activations)
  {
    if entries != [] {
      assert entries[|entries| - 1] in entries;
      CleanupTableGrows(entries[..|entries| - 1], activations, a);
    }
  }

  lemma AddedTables(s: State, c: Contribution, cleanup: bool)
    requires Sane(s) && Refusal(s.entries, c) == None
    ensures TablesOf(Register(s, c, cleanup)) == Added(TablesOf(s), c, cleanup, |s.activations|)
  {
    var e := Entry(c, |s.activations|);
    ContributionsSnoc(s.entries, e);
    CleanupTableGrows(s.entries, s.activations, Activation(c, cleanup));
    assert (s.entries + [e])[..|s.entries|] == s.entries;
  }

  lemma SameEntry(s: State, a: Entry, b: Entry)
    requires Sane(s) && a in s.entries && b in s.entries
    requires KeyOf(a.contribution) == KeyOf(b.contribution) || a.serial == b.serial
    ensures a == b
  {}

  /** Within these entries the key and the serial single out the same one. */
  ghost predicate Pair(entries: seq<Entry>, key: Key, serial: nat) {
    forall e :: e in entries ==> (KeyOf(e.contribution) == key <==> e.serial == serial)
  }

  lemma {:induction false} PopIsFilter(entries: seq<Entry>, key: Key, serial: nat)
    requires Pair(entries, key, serial)
    ensures PopKey(Contributions(entries), key) == Contributions(Filter(NotSerial(serial), entries))
  {
    if entries != [] {
      var rest := entries[1..];
      assert entries[0] in entries;
      assert Contributions(entries)[1..] == Contributions(rest);
      PopIsFilter(rest, key, serial);
      if entries[0].serial != serial {
        var f := Filter(NotSerial(serial), rest);
        assert ([entries[0]] + f)[1..] == f;
      }
    }
  }

  lemma {:induction false} HandleTableDrop(entries: seq<Entry>, key: Key, serial: nat)
    requires Pair(entries, key, serial)
    ensures HandleTable(Filter(NotSerial(serial), entries)) == HandleTable(entries) - {key}
  {
    if entries != [] {
      var init, e := entries[..|entries| - 1], entries[|entries| - 1];
      assert entries == init + [e] && e in entries;
      HandleTableDrop(init, key, serial);
      FilterSnoc(NotSerial(serial), init, e);
      var f := Filter(NotSerial(serial), init);
      assert (f + [e])[..|f|] == f;
    }
  }

  lemma {:induction false} CleanupTableDrop(entries: seq<Entry>, activations: seq<Activation>, key: Key, serial: nat)
    requires Pair(entries, key, serial)
    ensures CleanupTable(Filter(NotSerial(serial), entries), activations) == CleanupTable(entries, activations) - {key}
  {
    if entries != [] {
      var init, e := entries[..|entries| - 1], entries[|entries| - 1];
      assert entries == init + [e] && e in entries;
      CleanupTableDrop(init, activations, key, serial);
      FilterSnoc(NotSerial(serial), init, e);
      var f := Filter(NotSerial(serial), init);
      assert (f + [e])[..|f|] == f;
    }
  }

  lemma {:induction false} TableLookup(entries: seq<Entry>, activations: seq<Activation>, e: Entry)
    requires KeysDistinct(entries) && e in entries
    ensures var key := KeyOf(e.contribution);
            && key in HandleTable(entries) && HandleTable(entries)[key] == e.serial
            && (key in CleanupTable(entries, activations) <==>
                e.serial < |activations| && activations[e.serial].cleanup)
            && (key in CleanupTable(entries, activations) ==> CleanupTable(entries, activations)[key] == e.serial)
  {
    var init, last := entries[..|entries| - 1], entries[|entries| - 1];
    assert entries == init + [last];
    if e in init {
      TableLookup(init, activations, e);
    } else {
      assert forall x :: x in init ==> KeyOf(x.contribution) != KeyOf(e.contribution);
      NotInTables(init, activations, KeyOf(e.contribution));
    }
  }

  lemma {:induction false} NotInTables(entries: seq<Entry>, activations: seq<Activation>, key: Key)
    requires forall x :: x in entries ==> KeyOf(x.contribution) != key
    ensures key !in HandleTable(entries) && key !in CleanupTable(entries, activations)
  {
    if entries != [] {
      assert entries[|entries| - 1] in entries;
      NotInTables(entries[..|entries| - 1], activations, key);
    }
  }

  /** Live contributions and handles have the same keys; the keys with a cleanup are
      among them, and are those whose activation left one. */
  ghost predicate KeysAgree(t: Tables) {
    && t.handles.Keys == (set c | c in t.live :: KeyOf(c))
    && t.cleanups.Keys <= t.handles.Keys
    && (forall k :: k in t.cleanups ==> t.cleanups[k] == t.handles[k])
  }

  lemma {:induction false} TableKeys(entries: seq<Entry>, activations: seq<Activation>)
    requires KeysDistinct(entries)
    ensures KeysAgree(Tables(Contributions(entries), HandleTable(entries), CleanupTable(entries, activations)))
  {
    if entries != [] {
      var init, e := entries[..|entries| - 1], entries[|entries| - 1];
      assert entries == init + [e];
      TableKeys(init, activations);
      ContributionsSnoc(init, e);
      assert forall x :: x in init ==> KeyOf(x.contribution) != KeyOf(e.contribution);
      NotInTables(init, activations, KeyOf(e.contribution));
      KeysSnoc(Contributions(init), e.contribution);
    }
  }

  lemma KeysSnoc(live: seq<Contribution>, c: Contribution)
    ensures (set x | x in live + [c] :: KeyOf(x)) == (set x | x in live :: KeyOf(x)) + {KeyOf(c)}
  {}

  /** Over every run of the three operations, handles disposed on their own included. */
  lemma RunKeysAgree(ops: seq<Op>)
    ensures KeysAgree(TablesOf(Run(INITIAL, ops)))
  {
    RunDiscipline(INITIAL, ops);
    var s := Run(INITIAL, ops);
    TableKeys(s.entries, s.activations);
  }

  lemma RemovedTables(s: State, e: Entry)
    requires Sane(s) && e in s.entries
    ensures TablesOf(DisposeHandle(s, e.serial)) == Removed(TablesOf(s), KeyOf(e.contribution))
    ensures Live(s, e.serial)
    ensures var key := KeyOf(e.contribution); var cleanups := TablesOf(s).cleanups;
            CleanupOf(s, e.serial) == if key in cleanups then [cleanups[key]] else []
  {
    var key := KeyOf(e.contribution);
    LiveMembers(s, e.serial);
    forall x | x in s.entries ensures KeyOf(x.contribution) == key <==> x.serial == e.serial {
      if KeyOf(x.contribution) == key || x.serial == e.serial { SameEntry(s, x, e); }
    }
    PopIsFilter(s.entries, key, e.serial);
    HandleTableDrop(s.entries, key, e.serial);
    CleanupTableDrop(s.entries, s.activations, key, e.serial);
    TableLookup(s.entries, s.activations, e);
  }

  /** Everything `register` has to establish about the tables. */
  ghost predicate Grows(s: State, c: Contribution, cleanup: bool, after: State) {
    && after == State(s.entries + [Entry(c, |s.activations|)], s.cleaned, s.activations + [Activation(c, cleanup)])
    && Sane(after) && TablesOf(after) == Added(TablesOf(s), c, cleanup, |s.activations|)
    && (forall n: nat :: Live(after, n) <==> Live(s, n) || n == |s.activations|)
    && !Live(s, |s.activations|)
  }

  lemma RegisterGrows(s: State, c: Contribution, cleanup: bool)
    requires Sane(s) && Refusal(s.entries, c) == None
    ensures Grows(s, c, cleanup, Register(s, c, cleanup))
  {
    AddedTables(s, c, cleanup);
    SaneStep(s, OpRegister(c, cleanup));
    forall n: nat ensures Live(Register(s, c, cleanup), n) <==> Live(s, n) || n == |s.activations| {
      HasSerialSnoc(s.entries, Entry(c, |s.activations|), n);
    }
    LiveMembers(s, |s.activations|);
  }

  /** Everything the disposal closure has to establish about the tables. */
  ghost predicate Shrinks(s: State, serial: nat, key: Key, after: State) {
    && after.activations == s.activations && Sane(after)
    && TablesOf(after) == Removed(TablesOf(s), key)
    && after.cleaned == s.cleaned + (if key in TablesOf(s).cleanups then [TablesOf(s).cleanups[key]] else [])
    && (forall n: nat :: Live(after, n) <==> Live(s, n) && n != serial)
  }

  lemma DisposeShrinks(s: State, serial: nat)
    requires Sane(s) && Live(s, serial) && serial < |s.activations|
    ensures Shrinks(s, serial, KeyOf(s.activations[serial].contribution), DisposeHandle(s, serial))
  {
    LiveMembers(s, serial);
    var e :| e in s.entries && e.serial == serial;
    RemovedTables(s, e);
    SaneStep(s, OpDisposeHandle(serial));
    forall n: nat ensures Live(DisposeHandle(s, serial), n) <==> Live(s, n) && n != serial {
      HasSerialDrop(s.entries, serial, n);
    }
  }

  // ----- the object -----

  class CapabilityKernel {
    /** `_contributions`, `_cleanups` and `_handles`; the first in insertion order. */
    var contributions: seq<Contribution>
    var cleanups: map<Key, nat>
    var handles: map<Key, ContributionHandle>
    /** The cleanups that have run, in order.  A cleanup is named by the number of
        the activation that returned it; minted counts the activations. */
    var cleaned: seq<nat>
    var minted: nat
    ghost var entries: seq<Entry>
    ghost var activations: seq<Activation>
    ghost var issued: seq<ContributionHandle>
    ghost var handleSerials: map<Key, nat>

    constructor ()
      ensures Valid() && View() == INITIAL && issued == []
    {
      contributions, cleanups, handles, cleaned, minted := [], map[], map[], [], 0;
      entries, activations, issued, handleSerials := [], [], [], map[];
    }

    /** The registry state the object stands for. */
    ghost function View(): State
      reads this
    {
      State(entries, cleaned, activations)
    }

    /** The tables, with the handle table by activation number. */
    ghost function TablesNow(): Tables
      reads this
    {
      Tables(contributions, handleSerials, cleanups)
    }

    /** The handle table by objects and by activation numbers. */
    ghost predicate NumbersMatch()
      reads this
    {
      && minted == |activations| == |issued|
      && handles.Keys == handleSerials.Keys
      && (forall k :: k in handles ==> handleSerials[k] < |issued| && handles[k] == issued[handleSerials[k]])
    }

    /** Every handle ever issued knows its activation, and is active exactly while
        that activation is live; skip exempts a handle in the middle of Dispose. */
    ghost predicate HandlesMatch(skip: int)
      reads this, issued
    {
      && NumbersMatch()
      && (forall n :: 0 <= n < |issued| ==>
            && issued[n].serial == n && issued[n].kernel == this
            && issued[n].contribution == activations[n].contribution
            && (n != skip ==> (issued[n].active <==> Live(View(), n))))
    }

    /** The tables are those the registry state calls for. */
    ghost predicate TablesMatch()
      reads this
    {
      Sane(View()) && TablesNow() == TablesOf(View())
    }

    ghost predicate Valid()
      reads this, issued
    {
      TablesMatch() && HandlesMatch(-1)
    }

    lemma HandleLive(h: ContributionHandle)
      requires Valid() && h in issued
      ensures h.serial < |issued| && issued[h.serial] == h && h.kernel == this
      ensures h.active <==> Live(View(), h.serial)
    {
      var n :| 0 <= n < |issued| && issued[n] == h;
      assert issued[n].serial == n;
    }

    /** The three dictionaries of a valid kernel agree on their keys. */
    lemma SameKeys()
      requires Valid()
      ensures handles.Keys == (set c | c in contributions :: KeyOf(c))
      ensures cleanups.Keys <= handles.Keys
    {
      TableKeys(entries, activations);
    }

    /** `register`: refused without a change, or appended with a fresh live handle. */
    method RegisterContribution(c: Contribution, cleanup: bool) returns (r: Result<ContributionHandle, RegisterError>)
      requires Valid()
      modifies this
      ensures Valid()
      ensures View() == Register(old(View()), c, cleanup)
      ensures match r
        case Err(e) => Refusal(old(View()).entries, c) == Some(e) && issued == old(issued)
        case Ok(h) => Refusal(old(View()).entries, c) == None && fresh(h) && h.active && issued == old(issued) + [h]
    {
      ghost var s := View();
      ContributionsMeaning(s.entries);
      if c.id == "" || c.kind == "" {
        return Err(NameRequired);
      }
      var key := KeyOf(c);
      if exists i :: 0 <= i < |contributions| && KeyOf(contributions[i]) == key {
        ghost var i :| 0 <= i < |contributions| && KeyOf(contributions[i]) == key;
        assert KeyOf(s.entries[i].contribution) == key;
        return Err(Duplicate);
      }
      assert !Registered(s.entries, key) by {
        forall i | 0 <= i < |s.entries| ensures KeyOf(s.entries[i].contribution) != key {
          assert contributions[i] == s.entries[i].contribution;
        }
      }
      var missing := Missing(contributions, c.dependencies, c.scope);
      if missing != [] {
        return Err(MissingDependencies(missing));
      }
      var handle := new ContributionHandle(this, c, minted);
      RegisterGrows(s, c, cleanup);
      Install(c, cleanup, handle);
      return Ok(handle);
    }

    /** Puts an accepted contribution and its handle into the tables. */
    method Install(c: Contribution, cleanup: bool, handle: ContributionHandle)
      requires HandlesMatch(-1) && !Live(View(), minted)
      requires forall n: nat :: HasSerial(entries + [Entry(c, minted)], n) <==> Live(View(), n) || n == minted
      requires handle.active && handle.kernel == this && handle.contribution == c && handle.serial == minted
      modifies this
      ensures HandlesMatch(-1) && issued == old(issued) + [handle]
      ensures TablesNow() == Added(old(TablesNow()), c, cleanup, old(minted))
      ensures View() == State(old(entries) + [Entry(c, old(minted))],
                              old(cleaned),
                              old(activations) + [Activation(c, cleanup)])
    {
      AddContribution(c, cleanup);
      handles := handles[KeyOf(c) := handle];
      handleSerials := handleSerials[KeyOf(c) := minted];
      entries := entries + [Entry(c, minted)];
      activations := activations + [Activation(c, cleanup)];
      issued := issued + [handle];
      minted := minted + 1;
      assert NumbersMatch();
    }

    /** The contribution, and its cleanup if the activation returned one. */
    method AddContribution(c: Contribution, cleanup: bool)
      modifies this`contributions, this`cleanups
      ensures contributions == old(contributions) + [c]
      ensures cleanups == if cleanup then old(cleanups)[KeyOf(c) := minted] else old(cleanups)
    {
      contributions := contributions + [c];
      if cleanup {
        cleanups := cleanups[KeyOf(c) := minted];
      }
    }

    /** The disposal closure: out of the tables first, then the cleanup. */
    method Withdraw(key: Key, ghost serial: nat)
      requires TablesMatch() && HandlesMatch(serial)
      requires serial < |issued| && !issued[serial].active && Live(View(), serial)
      requires key == KeyOf(activations[serial].contribution)
      modifies this
      ensures Valid() && issued == old(issued)
      ensures View() == DisposeHandle(old(View()), serial)
    {
      ghost var after := DisposeHandle(View(), serial);
      DisposeShrinks(View(), serial);
      PopTables(key, serial, after.entries);
    }

    /** `pop(key, None)` on each table in turn, then the cleanup, if there was one. */
    method PopTables(key: Key, ghost serial: nat, ghost kept: seq<Entry>)
      requires HandlesMatch(serial) && serial < |issued| && !issued[serial].active
      requires forall n: nat :: HasSerial(kept, n) <==> Live(View(), n) && n != serial
      modifies this
      ensures HandlesMatch(-1) && issued == old(issued)
      ensures TablesNow() == Removed(old(TablesNow()), key)
      ensures View() == State(kept,
                              old(cleaned) + (if key in old(cleanups) then [old(cleanups)[key]] else []),
                              old(activations))
    {
      contributions := PopKey(contributions, key);
      handles := handles - {key};
      handleSerials := handleSerials - {key};
      if key in cleanups {
        var cleanup := cleanups[key];
        cleanups := cleanups - {key};
        cleaned := cleaned + [cleanup];
      }
      entries := kept;
    }

    /** `self._handles.get(key)` and, if there is one, its `dispose()`. */
    method DisposeKey(key: Key, ghost serial: nat)
      requires Valid() && key in TablesOf(View()).handles && TablesOf(View()).handles[key] == serial
      modifies this, issued
      ensures Valid() && issued == old(issued)
      ensures View() == DisposeHandle(old(View()), serial)
    {
      if key in handles {
        var handle := handles[key];
        assert handle == issued[serial];
        handle.Dispose();
      }
    }

    /** `dispose_scope`: collects the keys inside, disposes their handles one by one
        and returns how many there were. */
    method DisposeAll(scope: Scope) returns (count: nat)
      requires Valid()
      modifies this, issued
      ensures Valid() && issued == old(issued)
      ensures View() == DisposeScope(old(View()), scope)
      ensures count == |old(View()).entries| - |View().entries|
    {
      KeysInMeaning(scope, entries);
      FilterSplit(Inside(scope), Outside(scope), entries);
      var keys := KeysIn(scope, contributions);
      DisposeKeys(keys, scope);
      return |keys|;
    }

    /** `resolve`: the first provider of the chain. */
    method ResolveProvider(kind: string, id: string, scope: Scope) returns (provider: Option<string>)
      requires Valid()
      ensures provider == Resolve(Contributions(View().entries), kind, id, scope)
    {
      return Resolve(contributions, kind, id, scope);
    }

    /** `list`: what the request sees; its entries of one id are the chain of that id. */
    method ListVisible(kind: string, scope: Scope) returns (visible: seq<Contribution>)
      requires Valid()
      ensures visible == Visible(Contributions(View().entries), kind, scope)
      ensures forall id :: Filter(HasId(id), visible) == ResolveChain(Contributions(View().entries), kind, id, scope)
    {
      visible := Visible(contributions, kind, scope);
      forall id ensures Filter(HasId(id), visible) == ResolveChain(contributions, kind, id, scope) {
        ViewsAgree(contributions, kind, id, scope);
      }
    }

    /** The loop over the collected keys. */
    method DisposeKeys(keys: seq<Key>, ghost scope: Scope)
      requires Valid() && LeadTo(keys, Filter(Inside(scope), entries))
      modifies this, issued
      ensures Valid() && issued == old(issued)
      ensures View() == DisposeScope(old(View()), scope)
    {
      ghost var s := View();
      ghost var inside := Filter(Inside(scope), s.entries);
      DisposedNone(s, inside);
      for k := 0 to |keys|
        invariant Valid() && issued == old(issued)
        invariant View() == AfterDisposing(s, inside[..k])
      {
        NextToGo(s, scope, k);
        DisposeKey(keys[k], inside[k].serial);
      }
      assert inside[..|keys|] == inside;
      DisposedAll(s, scope);
    }
  }

  /** The keys are those of the entries. */
  ghost predicate LeadTo(keys: seq<Key>, entries: seq<Entry>) {
    |keys| == |entries| && forall k :: 0 <= k < |keys| ==> keys[k] == KeyOf(entries[k].contribution)
  }

  lemma DisposedNone(s: State, inside: seq<Entry>)
    ensures AfterDisposing(s, inside[..0]) == s
  {
    FilterAll((e: Entry) => e !in inside[..0], s.entries);
    assert inside[..0] == [] && s.cleaned + [] == s.cleaned;
  }

  /** The next entry to go has not gone with an earlier one. */
  lemma {:induction false} StillThere(s: State, scope: Scope, k: nat)
    requires Sane(s) && k < |Filter(Inside(scope), s.entries)|
    ensures var inside := Filter(Inside(scope), s.entries);
            && inside[k] in s.entries && inside[k] !in inside[..k]
            && inside[k] in AfterDisposing(s, inside[..k]).entries
  {
    var inside := Filter(Inside(scope), s.entries);
    FilterMembers(Inside(scope), s.entries);
    FilterKeepsOrder(Inside(scope), s.entries);
    assert inside[k] in inside;
    FilterMembers((x: Entry) => x !in inside[..k], s.entries);
  }

  /** The k-th collected key still leads to its own activation, and disposing that
      takes one more entry away. */
  lemma {:induction false} NextToGo(s: State, scope: Scope, k: nat)
    requires Sane(s) && k < |Filter(Inside(scope), s.entries)|
    requires Sane(AfterDisposing(s, Filter(Inside(scope), s.entries)[..k]))
    ensures var inside := Filter(Inside(scope), s.entries); var t := AfterDisposing(s, inside[..k]);
            var key := KeyOf(inside[k].contribution);
            && key in TablesOf(t).handles && TablesOf(t).handles[key] == inside[k].serial
            && DisposeHandle(t, inside[k].serial) == AfterDisposing(s, inside[..k + 1])
  {
    var inside := Filter(Inside(scope), s.entries);
    var t := AfterDisposing(s, inside[..k]);
    StillThere(s, scope, k);
    DisposeNext(s, inside[..k], inside[k]);
    TableLookup(t.entries, t.activations, inside[k]);
    assert inside[..k + 1] == inside[..k] + [inside[k]];
  }
}
