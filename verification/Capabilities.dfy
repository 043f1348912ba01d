/** Capability contributions over a partial order of scopes: what the registry
    keeps over every run of registrations and disposals. */
module Capabilities {
  import opened Sequences

  // ----- scopes -----

  datatype Scope = Scope(workspace: string, session: string, worker: string) {
    function Depth(): nat {
      if worker != "" then 3 else if session != "" then 2 else if workspace != "" then 1 else 0
    }

    /** Whether this scope is the requested one or an ancestor of it. */
    predicate Contains(requested: Scope) {
      && (workspace == "" || workspace == requested.workspace)
      && (session == "" || session == requested.session)
      && (worker == "" || worker == requested.worker)
      && Depth() <= requested.Depth()
    }

    /** Every level above the deepest one is named. */
    predicate WellNested() {
      (worker != "" ==> session != "") && (session != "" ==> workspace != "")
    }
  }

  /** What `contains` is, for all scopes: every name the scope gives is the name the
      request gives.  The comparison of depths decides nothing further. */
  lemma ContainsByNames(a: Scope, b: Scope)
    ensures a.Contains(b) <==>
            (a.workspace == "" || a.workspace == b.workspace)
            && (a.session == "" || a.session == b.session)
            && (a.worker == "" || a.worker == b.worker)
  {}

  /** For well-nested scopes: the ancestors of a scope are the global scope, its
      workspace, its session and itself. */
  lemma ContainsIsAncestry(a: Scope, b: Scope)
    requires a.WellNested() && b.WellNested()
    ensures a.Contains(b) <==>
            a in {Scope("", "", ""), Scope(b.workspace, "", ""), Scope(b.workspace, b.session, ""), b}
  {}

  /** `contains` is a partial order. */
  lemma ContainsIsPartialOrder(a: Scope, b: Scope, c: Scope)
    ensures a.Contains(a)
    ensures a.Contains(b) && b.Contains(a) ==> a == b
    ensures a.Contains(b) && b.Contains(c) ==> a.Contains(c)
  {}

  /** Two well-nested scopes around the same request: the shallower one contains
      the deeper one, and equal depth means equal scope. */
  lemma WellNestedChain(a: Scope, b: Scope, r: Scope)
    requires a.WellNested() && b.WellNested() && a.Contains(r) && b.Contains(r)
    ensures a.Depth() <= b.Depth() ==> a.Contains(b)
    ensures a.Depth() == b.Depth() ==> a == b
  {}

  /** Two different scopes at one depth that a single request sees both. */
  ghost predicate Ties(a: Scope, b: Scope) {
    a != b && a.Depth() == b.Depth() && exists r: Scope :: a.Contains(r) && b.Contains(r)
  }

  /** Well-nesting is exactly what rules ties with well-nested scopes out. */
  lemma WellNestedIsTieFree(a: Scope)
    ensures a.WellNested() <==> !exists b: Scope :: b.WellNested() && Ties(a, b)
  {
    if !a.WellNested() {
      var session := if a.worker != "" && a.session == "" then "s" else a.session;
      var b := Scope(if a.workspace == "" then "w" else a.workspace, session, a.worker);
      assert a.Contains(b) && b.Contains(b);
      assert Ties(a, b);
    } else {
      forall b: Scope, r: Scope | b.WellNested() && a.Depth() == b.Depth() && a.Contains(r) && b.Contains(r)
        ensures a == b
      {
        WellNestedChain(a, b, r);
      }
    }
  }

  // ----- contributions -----

  datatype Contribution = Contribution(
    id: string, kind: string, provider: string, dependencies: seq<string>, scope: Scope, priority: int)

  datatype Key = Key(kind: string, id: string, scope: Scope)

  function KeyOf(c: Contribution): Key {
    Key(c.kind, c.id, c.scope)
  }

  /** p offers the dependency to something registered in the scope. */
  predicate Offers(p: Contribution, dependency: string, scope: Scope) {
    p.id == dependency && p.scope.Contains(scope)
  }

  predicate DependencyAvailable(live: seq<Contribution>, dependency: string, scope: Scope) {
    exists i :: 0 <= i < |live| && Offers(live[i], dependency, scope)
  }

  /** The unavailable dependencies, in the order they are declared. */
  function Missing(live: seq<Contribution>, dependencies: seq<string>, scope: Scope): seq<string> {
    if dependencies == [] then []
    else if DependencyAvailable(live, dependencies[0], scope) then Missing(live, dependencies[1..], scope)
    else [dependencies[0]] + Missing(live, dependencies[1..], scope)
  }

  lemma {:induction false} MissingNothing(live: seq<Contribution>, dependencies: seq<string>, scope: Scope)
    ensures Missing(live, dependencies, scope) == [] <==>
            forall d :: d in dependencies ==> DependencyAvailable(live, d, scope)
  {
    if dependencies != [] {
      MissingNothing(live, dependencies[1..], scope);
      assert dependencies == [dependencies[0]] + dependencies[1..];
    }
  }

  // ----- the registry -----

  /** A live contribution.  The serial number names one activation and with it the
      handle that `register` returned for it. */
  datatype Entry = Entry(contribution: Contribution, serial: nat)

  /** What an activation was, and whether it left a cleanup to run. */
  datatype Activation = Activation(contribution: Contribution, cleanup: bool)

  /** The live entries in insertion order, the cleanups run so far, and every
      activation there has been, indexed by serial number. */
  datatype State = State(entries: seq<Entry>, cleaned: seq<nat>, activations: seq<Activation>)

  const INITIAL := State([], [], [])

  function Contributions(entries: seq<Entry>): seq<Contribution> {
    if entries == [] then [] else [entries[0].contribution] + Contributions(entries[1..])
  }

  lemma {:induction false} ContributionsMeaning(entries: seq<Entry>)
    ensures |Contributions(entries)| == |entries|
    ensures forall i :: 0 <= i < |entries| ==> Contributions(entries)[i] == entries[i].contribution
  {
    if entries != [] { ContributionsMeaning(entries[1..]); }
  }

  datatype RegisterError = NameRequired | Duplicate | MissingDependencies(names: seq<string>)

  predicate Registered(entries: seq<Entry>, key: Key) {
    exists i :: 0 <= i < |entries| && KeyOf(entries[i].contribution) == key
  }

  function Refusal(entries: seq<Entry>, c: Contribution): Option<RegisterError> {
    if c.id == "" || c.kind == "" then Some(NameRequired)
    else if Registered(entries, KeyOf(c)) then Some(Duplicate)
    else
      var missing := Missing(Contributions(entries), c.dependencies, c.scope);
      if missing != [] then Some(MissingDependencies(missing)) else None
  }

  function Register(s: State, c: Contribution, cleanup: bool): State {
    if Refusal(s.entries, c).Some? then s else
      State(s.entries + [Entry(c, |s.activations|)], s.cleaned, s.activations + [Activation(c, cleanup)])
  }

  predicate HasSerial(entries: seq<Entry>, serial: nat) {
    entries != [] && (entries[0].serial == serial || HasSerial(entries[1..], serial))
  }

  predicate Live(s: State, serial: nat) {
    HasSerial(s.entries, serial)
  }

  function NotSerial(serial: nat): Entry -> bool {
    (e: Entry) => e.serial != serial
  }

  /** The cleanup that disposing this activation runs. */
  function CleanupOf(s: State, serial: nat): seq<nat> {
    if serial < |s.activations| && s.activations[serial].cleanup then [serial] else []
  }

  /** `handle.dispose()`: acts once, and only on its own activation. */
  function DisposeHandle(s: State, serial: nat): State {
    if Live(s, serial)
    then State(Filter(NotSerial(serial), s.entries), s.cleaned + CleanupOf(s, serial), s.activations)
    else s
  }

  function Inside(scope: Scope): Entry -> bool {
    (e: Entry) => scope.Contains(e.contribution.scope)
  }

  function Outside(scope: Scope): Entry -> bool {
    (e: Entry) => !scope.Contains(e.contribution.scope)
  }

  function CleanupsOf(s: State, entries: seq<Entry>): seq<nat> {
    if entries == [] then [] else CleanupOf(s, entries[0].serial) + CleanupsOf(s, entries[1..])
  }

  /** `dispose_scope`: everything in the scope and its descendants goes. */
  function DisposeScope(s: State, scope: Scope): State {
    State(Filter(Outside(scope), s.entries),
          s.cleaned + CleanupsOf(s, Filter(Inside(scope), s.entries)),
          s.activations)
  }

  /** A live contribution of that id in a containing scope. */
  ghost predicate Provided(entries: seq<Entry>, dependency: string, scope: Scope) {
    exists p :: p in entries && p.contribution.id == dependency && p.contribution.scope.Contains(scope)
  }

  lemma AvailableIsProvided(entries: seq<Entry>, dependency: string, scope: Scope)
    ensures DependencyAvailable(Contributions(entries), dependency, scope) <==> Provided(entries, dependency, scope)
  {
    ContributionsMeaning(entries);
    var live := Contributions(entries);
    if i :| 0 <= i < |live| && Offers(live[i], dependency, scope) {
      assert entries[i] in entries;
    }
    if p :| p in entries && p.contribution.id == dependency && p.contribution.scope.Contains(scope) {
      var i :| 0 <= i < |entries| && entries[i] == p;
      assert Offers(live[i], dependency, scope);
    }
  }

  lemma {:induction false} MissingMeaning(live: seq<Contribution>, dependencies: seq<string>, scope: Scope)
    ensures Missing(live, dependencies, scope) == Filter(d => !DependencyAvailable(live, d, scope), dependencies)
  {
    if dependencies != [] { MissingMeaning(live, dependencies[1..], scope); }
  }

  /** When `register` accepts, and what it refuses for: first a missing name, then a
      live contribution of the same kind, id and scope, then dependencies that no live
      contribution provides, which the error lists. */
  lemma RegisterDecides(s: State, c: Contribution, cleanup: bool)
    ensures var nameless := c.id == "" || c.kind == "";
            var taken := exists e :: e in s.entries && e.contribution.kind == c.kind
                           && e.contribution.id == c.id && e.contribution.scope == c.scope;
            var unprovided := exists d :: d in c.dependencies && !Provided(s.entries, d, c.scope);
            match Refusal(s.entries, c)
            case None => !nameless && !taken && !unprovided
            case Some(NameRequired) => nameless
            case Some(Duplicate) => !nameless && taken
            case Some(MissingDependencies(names)) =>
              && !nameless && !taken && unprovided
              && forall d :: d in names <==> d in c.dependencies && !Provided(s.entries, d, c.scope)
    ensures Register(s, c, cleanup) ==
            if Refusal(s.entries, c).Some? then s
            else State(s.entries + [Entry(c, |s.activations|)], s.cleaned, s.activations + [Activation(c, cleanup)])
  {
    var live := Contributions(s.entries);
    forall d ensures DependencyAvailable(live, d, c.scope) <==> Provided(s.entries, d, c.scope) {
      AvailableIsProvided(s.entries, d, c.scope);
    }
    MissingMeaning(live, c.dependencies, c.scope);
    FilterMembers(d => !DependencyAvailable(live, d, c.scope), c.dependencies);
    MissingNothing(live, c.dependencies, c.scope);
    TakenMeaning(s.entries, c);
  }

  lemma TakenMeaning(entries: seq<Entry>, c: Contribution)
    ensures Registered(entries, KeyOf(c)) <==>
            exists e :: e in entries && e.contribution.kind == c.kind
              && e.contribution.id == c.id && e.contribution.scope == c.scope
  {
    if i :| 0 <= i < |entries| && KeyOf(entries[i].contribution) == KeyOf(c) {
      assert entries[i] in entries;
    }
  }

  /** `dispose_scope` takes exactly what the scope contains; all else stays. */
  lemma DisposeScopeExactly(s: State, scope: Scope)
    ensures forall e :: e in DisposeScope(s, scope).entries <==>
                          e in s.entries && !scope.Contains(e.contribution.scope)
  {
    FilterMembers(Outside(scope), s.entries);
  }

  /** Of a well-nested scope nothing stays that is in it or in a descendant, and what
      is elsewhere stays. */
  lemma NothingBelowStays(s: State, scope: Scope, e: Entry)
    requires scope.WellNested() && e in s.entries && e.contribution.scope.WellNested()
    ensures var at := e.contribution.scope;
            e !in DisposeScope(s, scope).entries <==>
              scope in {Scope("", "", ""), Scope(at.workspace, "", ""), Scope(at.workspace, at.session, ""), at}
  {
    DisposeScopeExactly(s, scope);
    ContainsIsAncestry(scope, e.contribution.scope);
  }

  /** `dispose` of a handle takes its own activation and nothing else. */
  lemma DisposeHandleExactly(s: State, serial: nat)
    ensures forall e :: e in DisposeHandle(s, serial).entries <==> e in s.entries && e.serial != serial
  {
    FilterMembers(NotSerial(serial), s.entries);
    LiveMembers(s, serial);
  }

  datatype Op =
    | OpRegister(contribution: Contribution, cleanup: bool)
    | OpDisposeScope(scope: Scope)
    | OpDisposeHandle(serial: nat)

  function Step(s: State, op: Op): State {
    match op
    case OpRegister(c, cleanup) => Register(s, c, cleanup)
    case OpDisposeScope(scope) => DisposeScope(s, scope)
    case OpDisposeHandle(serial) => DisposeHandle(s, serial)
  }

  function Run(s: State, ops: seq<Op>): State
    decreases ops
  {
    if ops == [] then s else Run(Step(s, ops[0]), ops[1..])
  }

  // ----- what every run keeps -----

  ghost predicate SerialsIncrease(entries: seq<Entry>) {
    forall i, j :: 0 <= i < j < |entries| ==> entries[i].serial < entries[j].serial
  }

  ghost predicate KeysDistinct(entries: seq<Entry>) {
    forall i, j :: 0 <= i < j < |entries| ==> KeyOf(entries[i].contribution) != KeyOf(entries[j].contribution)
  }

  ghost predicate Sane(s: State) {
    && SerialsIncrease(s.entries) && KeysDistinct(s.entries)
    && (forall e :: e in s.entries ==>
          && e.serial < |s.activations| && s.activations[e.serial].contribution == e.contribution
          && e.contribution.id != "" && e.contribution.kind != "")
  }

  /** Each activation's cleanup has run once if it is gone, and never otherwise. */
  ghost predicate CleanedOnce(s: State) {
    forall n: nat :: CleanCount(s, n)
  }

  ghost predicate CleanCount(s: State, n: nat) {
    multiset(s.cleaned)[n] == if n < |s.activations| && s.activations[n].cleanup && !Live(s, n) then 1 else 0
  }

  /** b was activated after a, under another key. */
  predicate Follows(a: Entry, b: Entry) {
    a.serial < b.serial && KeyOf(a.contribution) != KeyOf(b.contribution)
  }

  lemma LaterFollows(entries: seq<Entry>, e: Entry)
    requires SerialsIncrease(entries) && KeysDistinct(entries) && entries != [] && e in entries[1..]
    ensures Follows(entries[0], e)
  {
    var k :| 0 <= k < |entries[1..]| && entries[1..][k] == e;
    assert entries[k + 1] == e;
  }

  lemma PrependOrdered(e: Entry, entries: seq<Entry>)
    requires SerialsIncrease(entries) && KeysDistinct(entries)
    requires forall j :: 0 <= j < |entries| ==> Follows(e, entries[j])
    ensures SerialsIncrease([e] + entries) && KeysDistinct([e] + entries)
  {}

  lemma {:induction false} FilterKeepsOrder(p: Entry -> bool, entries: seq<Entry>)
    requires SerialsIncrease(entries) && KeysDistinct(entries)
    ensures SerialsIncrease(Filter(p, entries)) && KeysDistinct(Filter(p, entries))
  {
    if entries != [] {
      var rest := entries[1..];
      FilterKeepsOrder(p, rest);
      FilterMembers(p, rest);
      var f := Filter(p, rest);
      forall j | 0 <= j < |f| ensures Follows(entries[0], f[j]) {
        assert f[j] in rest;
        LaterFollows(entries, f[j]);
      }
      if p(entries[0]) { PrependOrdered(entries[0], f); }
    }
  }

  lemma SaneStep(s: State, op: Op)
    requires Sane(s)
    ensures Sane(Step(s, op))
  {
    match op
    case OpRegister(c, cleanup) =>
    case OpDisposeScope(scope) =>
      FilterKeepsOrder(Outside(scope), s.entries);
      FilterMembers(Outside(scope), s.entries);
    case OpDisposeHandle(serial) =>
      FilterKeepsOrder(NotSerial(serial), s.entries);
      FilterMembers(NotSerial(serial), s.entries);
  }

  lemma {:induction false} HasSerialMeaning(entries: seq<Entry>, n: nat)
    ensures HasSerial(entries, n) <==> exists e :: e in entries && e.serial == n
  {
    if entries != [] {
      HasSerialMeaning(entries[1..], n);
      assert entries == [entries[0]] + entries[1..];
      assert entries[0] in entries;
    }
  }

  lemma LiveMembers(s: State, n: nat)
    ensures Live(s, n) <==> exists e :: e in s.entries && e.serial == n
  {
    HasSerialMeaning(s.entries, n);
  }

  /** Registering brings exactly the new serial to life. */
  lemma {:induction false} HasSerialSnoc(entries: seq<Entry>, e: Entry, n: nat)
    ensures HasSerial(entries + [e], n) <==> HasSerial(entries, n) || e.serial == n
  {
    if entries == [] {
      assert entries + [e] == [e] && [e][1..] == [];
    } else {
      assert (entries + [e])[1..] == entries[1..] + [e];
      HasSerialSnoc(entries[1..], e, n);
    }
  }

  /** Disposing takes exactly that serial away. */
  lemma {:induction false} HasSerialDrop(entries: seq<Entry>, serial: nat, n: nat)
    ensures HasSerial(Filter(NotSerial(serial), entries), n) <==> HasSerial(entries, n) && n != serial
  {
    if entries != [] {
      HasSerialDrop(entries[1..], serial, n);
      if entries[0].serial != serial {
        var f := Filter(NotSerial(serial), entries[1..]);
        assert ([entries[0]] + f)[1..] == f;
      }
    }
  }

  lemma {:induction false} CleanupCount(s: State, entries: seq<Entry>, n: nat)
    requires SerialsIncrease(entries)
    ensures multiset(CleanupsOf(s, entries))[n] ==
            if n < |s.activations| && s.activations[n].cleanup && HasSerial(entries, n) then 1 else 0
  {
    if entries != [] {
      var rest := entries[1..];
      CleanupCount(s, rest, n);
      HasSerialMeaning(rest, n);
    }
  }

  lemma CleanedOnceStep(s: State, op: Op)
    requires Sane(s) && CleanedOnce(s)
    ensures CleanedOnce(Step(s, op))
  {
    forall n: nat ensures CleanCount(Step(s, op), n) {
      CleanCountStep(s, op, n);
    }
  }

  lemma CleanCountStep(s: State, op: Op, n: nat)
    requires Sane(s) && CleanCount(s, n)
    ensures CleanCount(Step(s, op), n)
  {
    var t := Step(s, op);
    LiveMembers(s, n);
    LiveMembers(t, n);
    match op
    case OpRegister(c, cleanup) =>
      HasSerialSnoc(s.entries, Entry(c, |s.activations|), n);
    case OpDisposeScope(scope) =>
      FilterKeepsOrder(Inside(scope), s.entries);
      FilterMembers(Inside(scope), s.entries);
      FilterMembers(Outside(scope), s.entries);
      HasSerialMeaning(Filter(Inside(scope), s.entries), n);
      CleanupCount(s, Filter(Inside(scope), s.entries), n);
      SameSerial(s);
    case OpDisposeHandle(serial) =>
      FilterMembers(NotSerial(serial), s.entries);
  }

  /** A serial number names one live entry. */
  lemma SameSerial(s: State)
    requires Sane(s)
    ensures forall a, b :: a in s.entries && b in s.entries && a.serial == b.serial ==> a == b
  {}

  /** Over every run of the three operations: insertion order is serial order, keys
      are distinct, and cleanups run exactly once per disposed activation. */
  lemma {:induction false} RunDiscipline(s: State, ops: seq<Op>)
    requires Sane(s) && CleanedOnce(s)
    ensures Sane(Run(s, ops)) && CleanedOnce(Run(s, ops))
    decreases ops
  {
    if ops != [] {
      SaneStep(s, ops[0]);
      CleanedOnceStep(s, ops[0]);
      RunDiscipline(Step(s, ops[0]), ops[1..]);
    }
  }

  lemma {:induction false} GoneStaysGone(s: State, ops: seq<Op>, serial: nat)
    requires Sane(s) && serial < |s.activations| && !Live(s, serial)
    ensures serial < |Run(s, ops).activations| && !Live(Run(s, ops), serial)
    decreases ops
  {
    if ops != [] {
      var t := Step(s, ops[0]);
      SaneStep(s, ops[0]);
      LiveMembers(s, serial);
      LiveMembers(t, serial);
      match ops[0] {
        case OpRegister(_, _) =>
        case OpDisposeScope(scope) => FilterMembers(Outside(scope), s.entries);
        case OpDisposeHandle(n) => FilterMembers(NotSerial(n), s.entries);
      }
      GoneStaysGone(t, ops[1..], serial);
    }
  }

  /** A handle that was disposed, by itself or with its scope, never removes
      anything again, whatever has been registered under its key since. */
  lemma StaleHandle(s: State, ops: seq<Op>, serial: nat)
    requires Sane(s) && serial < |s.activations| && !Live(s, serial)
    ensures DisposeHandle(Run(s, ops), serial) == Run(s, ops)
  {
    GoneStaysGone(s, ops, serial);
  }

  // ----- dependency closure -----

  /** p is live, offers d to e and was registered before e. */
  predicate Serves(p: Entry, e: Entry, d: string) {
    Offers(p.contribution, d, e.contribution.scope) && p.serial < e.serial
  }

  ghost predicate Closed(entries: seq<Entry>) {
    forall e, d :: e in entries && d in e.contribution.dependencies ==> exists p :: p in entries && Serves(p, e, d)
  }

  lemma ClosedRegister(s: State, c: Contribution, cleanup: bool)
    requires Sane(s) && Closed(s.entries)
    ensures Closed(Register(s, c, cleanup).entries)
  {
    var t := Register(s, c, cleanup);
    if t != s {
      MissingNothing(Contributions(s.entries), c.dependencies, c.scope);
      ContributionsMeaning(s.entries);
      forall e, d | e in t.entries && d in e.contribution.dependencies
        ensures exists p :: p in t.entries && Serves(p, e, d)
      {
        if e in s.entries {
          var p :| p in s.entries && Serves(p, e, d);
          assert p in t.entries;
        } else {
          assert DependencyAvailable(Contributions(s.entries), d, c.scope);
          var i :| 0 <= i < |s.entries| && Offers(Contributions(s.entries)[i], d, c.scope);
          assert s.entries[i] in s.entries && s.entries[i] in t.entries;
          assert Serves(s.entries[i], e, d);
        }
      }
    }
  }

  /** Nothing outlives what it depends on: by transitivity the scope that takes a
      provider away takes everything it serves. */
  lemma ClosedDisposeScope(s: State, scope: Scope)
    requires Closed(s.entries)
    ensures Closed(DisposeScope(s, scope).entries)
  {
    var kept := DisposeScope(s, scope).entries;
    FilterMembers(Outside(scope), s.entries);
    forall e, d | e in kept && d in e.contribution.dependencies
      ensures exists p :: p in kept && Serves(p, e, d)
    {
      var p :| p in s.entries && Serves(p, e, d);
      ContainsIsPartialOrder(scope, p.contribution.scope, e.contribution.scope);
      assert p in kept;
    }
  }

  /** Over every run of `register` and `dispose_scope` each live contribution keeps,
      for each dependency, an earlier live provider in a containing scope. */
  lemma {:induction false} DependencyClosure(s: State, ops: seq<Op>)
    requires Sane(s) && Closed(s.entries)
    requires forall op :: op in ops ==> !op.OpDisposeHandle?
    ensures Closed(Run(s, ops).entries)
    decreases ops
  {
    if ops != [] {
      SaneStep(s, ops[0]);
      assert !ops[0].OpDisposeHandle?;
      if ops[0].OpRegister? {
        ClosedRegister(s, ops[0].contribution, ops[0].cleanup);
      } else {
        ClosedDisposeScope(s, ops[0].scope);
      }
      DependencyClosure(Step(s, ops[0]), ops[1..]);
    }
  }

  function Registrations(entries: seq<Entry>): seq<Op> {
    if entries == [] then [] else [OpRegister(entries[0].contribution, false)] + Registrations(entries[1..])
  }

  /** So the live dependency relation is well founded: registering the live
      contributions anew, in their order, into an empty kernel is never refused. */
  lemma ReplaySucceeds(s: State)
    requires Sane(s) && Closed(s.entries)
    ensures Contributions(Run(INITIAL, Registrations(s.entries)).entries) == Contributions(s.entries)
  {
    assert s.entries[..0] == [] && s.entries[0..] == s.entries;
    ReplayFrom(s, 0, INITIAL);
  }

  /** Both, for every run from the empty kernel. */
  lemma EveryRunIsClosed(ops: seq<Op>)
    requires forall op :: op in ops ==> !op.OpDisposeHandle?
    ensures var s := Run(INITIAL, ops);
            && Closed(s.entries)
            && Contributions(Run(INITIAL, Registrations(s.entries)).entries) == Contributions(s.entries)
  {
    DependencyClosure(INITIAL, ops);
    RunDiscipline(INITIAL, ops);
    ReplaySucceeds(Run(INITIAL, ops));
  }

  lemma {:induction false} ReplayFrom(s: State, n: nat, t: State)
    requires Sane(s) && Closed(s.entries) && n <= |s.entries|
    requires Contributions(t.entries) == Contributions(s.entries[..n])
    ensures Contributions(Run(t, Registrations(s.entries[n..])).entries) == Contributions(s.entries)
    decreases |s.entries| - n
  {
    if n == |s.entries| {
      assert s.entries[n..] == [] && s.entries[..n] == s.entries;
    } else {
      var e := s.entries[n];
      ReplayOne(s, n, t);
      var u := Register(t, e.contribution, false);
      assert s.entries[..n + 1] == s.entries[..n] + [e];
      ContributionsSnoc(s.entries[..n], e);
      ContributionsSnoc(t.entries, Entry(e.contribution, |t.activations|));
      ReplayFrom(s, n + 1, u);
      assert s.entries[n..][1..] == s.entries[n + 1..];
      assert Registrations(s.entries[n..])[1..] == Registrations(s.entries[n + 1..]);
    }
  }

  lemma {:induction false} ContributionsSnoc(entries: seq<Entry>, e: Entry)
    ensures Contributions(entries + [e]) == Contributions(entries) + [e.contribution]
  {
    if entries != [] {
      assert (entries + [e])[1..] == entries[1..] + [e];
      ContributionsSnoc(entries[1..], e);
    }
  }

  /** What the n-th live entry depends on stands before it. */
  lemma ProviderBefore(s: State, n: nat, d: string)
    requires Sane(s) && Closed(s.entries) && n < |s.entries| && d in s.entries[n].contribution.dependencies
    ensures exists k :: 0 <= k < n && Offers(s.entries[k].contribution, d, s.entries[n].contribution.scope)
  {
    assert s.entries[n] in s.entries;
    var p :| p in s.entries && Serves(p, s.entries[n], d);
    var k :| 0 <= k < |s.entries| && s.entries[k] == p;
    assert k < n;
  }

  lemma ReplayOne(s: State, n: nat, t: State)
    requires Sane(s) && Closed(s.entries) && n < |s.entries|
    requires Contributions(t.entries) == Contributions(s.entries[..n])
    ensures Refusal(t.entries, s.entries[n].contribution) == None
  {
    var c, live := s.entries[n].contribution, Contributions(t.entries);
    assert s.entries[n] in s.entries;
    ContributionsMeaning(s.entries[..n]);
    ContributionsMeaning(t.entries);
    assert |t.entries| == n && forall i :: 0 <= i < n ==> live[i] == s.entries[i].contribution;
    assert !Registered(t.entries, KeyOf(c)) by {
      forall i | 0 <= i < n ensures KeyOf(t.entries[i].contribution) != KeyOf(c) {
        assert t.entries[i].contribution == live[i];
      }
    }
    forall d | d in c.dependencies ensures DependencyAvailable(live, d, c.scope) {
      ProviderBefore(s, n, d);
      var k :| 0 <= k < n && Offers(s.entries[k].contribution, d, c.scope);
      assert Offers(live[k], d, c.scope);
    }
    MissingNothing(live, c.dependencies, c.scope);
  }

  // ----- a handle disposed on its own -----

  /** Disposing one handle keeps the closure exactly when everything the provider
      serves has another, equally early provider. */
  lemma HandleDisposalCondition(s: State, gone: Entry)
    requires Sane(s) && Closed(s.entries) && gone in s.entries
    ensures Closed(DisposeHandle(s, gone.serial).entries) <==>
            forall e, d :: e in s.entries && e != gone && d in e.contribution.dependencies && Serves(gone, e, d) ==>
              exists p :: p in s.entries && p != gone && Serves(p, e, d)
  {
    var kept := Filter(NotSerial(gone.serial), s.entries);
    FilterMembers(NotSerial(gone.serial), s.entries);
    SameSerial(s);
    LiveMembers(s, gone.serial);
    forall x ensures x in kept <==> x in s.entries && x != gone {}
    if forall e, d :: e in s.entries && e != gone && d in e.contribution.dependencies && Serves(gone, e, d) ==>
              exists p :: p in s.entries && p != gone && Serves(p, e, d) {
      forall e, d | e in kept && d in e.contribution.dependencies ensures exists p :: p in kept && Serves(p, e, d) {
        var p :| p in s.entries && Serves(p, e, d);
        if p == gone {
          var q :| q in s.entries && q != gone && Serves(q, e, d);
          assert q in kept;
        } else {
          assert p in kept;
        }
      }
    }
    if Closed(kept) {
      forall e, d | e in s.entries && e != gone && d in e.contribution.dependencies && Serves(gone, e, d)
        ensures exists p :: p in s.entries && p != gone && Serves(p, e, d)
      {
        assert e in kept;
        var p :| p in kept && Serves(p, e, d);
      }
    }
  }

  const BASE := Contribution("base", "tool", "p", [], Scope("", "", ""), 0)
  const USER := Contribution("user", "tool", "q", ["base"], Scope("", "", ""), 0)

  lemma TwoRegistrations()
    ensures Register(Register(INITIAL, BASE, false), USER, false)
              == State([Entry(BASE, 0)] + [Entry(USER, 1)], [], [Activation(BASE, false)] + [Activation(USER, false)])
  {
    var s1 := Register(INITIAL, BASE, false);
    assert s1.entries == [Entry(BASE, 0)] && s1.activations == [Activation(BASE, false)];
    assert Contributions(s1.entries)[0] == BASE && Offers(BASE, "base", USER.scope);
    assert DependencyAvailable(Contributions(s1.entries), "base", USER.scope);
    MissingNothing(Contributions(s1.entries), USER.dependencies, USER.scope);
  }

  /** It does not cascade: after disposing the only provider by its handle, the
      dependant is left dangling. */
  lemma HandleDisposalDangles()
    ensures var s := DisposeHandle(Register(Register(INITIAL, BASE, false), USER, false), 0);
            s.entries == [Entry(USER, 1)] && !Closed(s.entries)
  {
    TwoRegistrations();
    var s := Register(Register(INITIAL, BASE, false), USER, false);
    assert s.entries[0].serial == 0;
    FilterCons(NotSerial(0), Entry(BASE, 0), [Entry(USER, 1)]);
    FilterCons(NotSerial(0), Entry(USER, 1), []);
    assert [Entry(USER, 1)] + [] == [Entry(USER, 1)];
    var left := [Entry(USER, 1)];
    assert left[0] in left && "base" in USER.dependencies;
  }
}
