/** The two sorted views of the registry, `list` and `resolve_chain`. */
module CapabilityViews {
  import opened Sequences
  import opened Capabilities
  import Text

  /** Sort key of `resolve_chain`: deepest scope, then priority, then id. */
  predicate ChainLeq(a: Contribution, b: Contribution) {
    || a.scope.Depth() > b.scope.Depth()
    || (a.scope.Depth() == b.scope.Depth()
        && (a.priority > b.priority || (a.priority == b.priority && Text.Leq(a.id, b.id))))
  }

  /** Sort key of `list`: id, then deepest scope, then priority. */
  predicate ListLeq(a: Contribution, b: Contribution) {
    || (a.id != b.id && Text.Leq(a.id, b.id))
    || (a.id == b.id
        && (a.scope.Depth() > b.scope.Depth()
            || (a.scope.Depth() == b.scope.Depth() && a.priority >= b.priority)))
  }

  const CHAIN_ORDER: (Contribution, Contribution) -> bool := (a, b) => ChainLeq(a, b)
  const LIST_ORDER: (Contribution, Contribution) -> bool := (a, b) => ListLeq(a, b)

  lemma ChainOrderTotal()
    ensures TotalPreorder(CHAIN_ORDER)
  {
    forall a, b ensures CHAIN_ORDER(a, b) || CHAIN_ORDER(b, a) {
      Text.LeqTotal(a.id, b.id);
    }
    forall a, b, c | CHAIN_ORDER(a, b) && CHAIN_ORDER(b, c) ensures CHAIN_ORDER(a, c) {
      if Text.Leq(a.id, b.id) && Text.Leq(b.id, c.id) { Text.LeqTransitive(a.id, b.id, c.id); }
    }
  }

  lemma ListOrderTotal()
    ensures TotalPreorder(LIST_ORDER)
  {
    forall a, b ensures LIST_ORDER(a, b) || LIST_ORDER(b, a) {
      Text.LeqTotal(a.id, b.id);
    }
    forall a, b, c | LIST_ORDER(a, b) && LIST_ORDER(b, c) ensures LIST_ORDER(a, c) {
      if a.id != b.id && b.id != c.id {
        Text.LeqTransitive(a.id, b.id, c.id);
        if a.id == c.id { Text.LeqAntisymmetric(a.id, b.id); }
      }
    }
  }

  function InView(kind: string, scope: Scope): Contribution -> bool {
    (c: Contribution) => c.kind == kind && c.scope.Contains(scope)
  }

  /** A contribution of the kind and id that the request can see. */
  predicate Matches(x: Contribution, kind: string, id: string, scope: Scope) {
    x.kind == kind && x.id == id && x.scope.Contains(scope)
  }

  function InChain(kind: string, id: string, scope: Scope): Contribution -> bool {
    (c: Contribution) => Matches(c, kind, id, scope)
  }

  function HasId(id: string): Contribution -> bool {
    (c: Contribution) => c.id == id
  }

  /** `list(kind, scope)`: everything a request in the scope can see. */
  function Visible(live: seq<Contribution>, kind: string, scope: Scope): seq<Contribution> {
    StableSort(LIST_ORDER, Filter(InView(kind, scope), live))
  }

  /** `resolve_chain(kind, id, scope)`: from the nearest scope to the global one. */
  function ResolveChain(live: seq<Contribution>, kind: string, id: string, scope: Scope): seq<Contribution> {
    StableSort(CHAIN_ORDER, Filter(InChain(kind, id, scope), live))
  }

  function Resolve(live: seq<Contribution>, kind: string, id: string, scope: Scope): Option<string> {
    var chain := ResolveChain(live, kind, id, scope);
    if chain == [] then None else Some(chain[0].provider)
  }

  /** The differently keyed views agree, ties included: the entries of one id in
      `list` are `resolve_chain` of that id, in the same order. */
  lemma ViewsAgree(live: seq<Contribution>, kind: string, id: string, scope: Scope)
    ensures Filter(HasId(id), Visible(live, kind, scope)) == ResolveChain(live, kind, id, scope)
  {
    var seen := Filter(InView(kind, scope), live);
    var ours := Filter(InChain(kind, id, scope), live);
    ListOrderTotal();
    FilterSort(LIST_ORDER, HasId(id), seen);
    FilterCompose(HasId(id), InView(kind, scope), InChain(kind, id, scope), live);
    FilterMembers(InChain(kind, id, scope), live);
    forall x, y | x in ours && y in ours ensures LIST_ORDER(x, y) == CHAIN_ORDER(x, y) {
      Text.LeqTotal(id, id);
    }
    SortAgree(LIST_ORDER, CHAIN_ORDER, ours);
  }

  ghost predicate DistinctKeys(live: seq<Contribution>) {
    forall i, j :: 0 <= i < j < |live| ==> KeyOf(live[i]) != KeyOf(live[j])
  }

  lemma ChainMembers(live: seq<Contribution>, kind: string, id: string, scope: Scope)
    requires DistinctKeys(live)
    ensures var chain := ResolveChain(live, kind, id, scope);
            && Sorted(CHAIN_ORDER, chain) && Distinct(chain)
            && (forall c :: c in chain <==> c in live && c.kind == kind && c.id == id && c.scope.Contains(scope))
  {
    var ours := Filter(InChain(kind, id, scope), live);
    ChainOrderTotal();
    SortSorts(CHAIN_ORDER, ours);
    SortPermutes(CHAIN_ORDER, ours);
    SortMembers(CHAIN_ORDER, ours);
    FilterMembers(InChain(kind, id, scope), live);
    assert Distinct(live);
    FilterDistinct(InChain(kind, id, scope), live);
    DistinctByMultiset(ours, StableSort(CHAIN_ORDER, ours));
  }

  lemma SameKey(live: seq<Contribution>, a: Contribution, b: Contribution)
    requires DistinctKeys(live) && a in live && b in live && KeyOf(a) == KeyOf(b)
    ensures a == b
  {}

  /** For well-nested scopes the chain strictly descends in depth, each link's
      scope contains every earlier link's, and there are at most four links. */
  lemma ChainIsNested(live: seq<Contribution>, kind: string, id: string, scope: Scope)
    requires DistinctKeys(live)
    requires forall c :: c in live && c.kind == kind && c.id == id ==> c.scope.WellNested()
    ensures var chain := ResolveChain(live, kind, id, scope);
            && |chain| <= 4
            && (forall i, j :: 0 <= i < j < |chain| ==>
                  chain[i].scope.Depth() > chain[j].scope.Depth() && chain[j].scope.Contains(chain[i].scope))
  {
    var chain := ResolveChain(live, kind, id, scope);
    ChainMembers(live, kind, id, scope);
    forall i, j | 0 <= i < j < |chain|
      ensures chain[i].scope.Depth() > chain[j].scope.Depth() && chain[j].scope.Contains(chain[i].scope)
    {
      assert CHAIN_ORDER(chain[i], chain[j]);
      assert chain[i] in live && chain[j] in live;
      WellNestedChain(chain[j].scope, chain[i].scope, scope);
      if chain[i].scope.Depth() == chain[j].scope.Depth() {
        SameKey(live, chain[i], chain[j]);
      }
    }
    DescentIsShort(chain);
  }

  lemma {:induction false} DescentIsShort(chain: seq<Contribution>)
    requires forall i, j :: 0 <= i < j < |chain| ==> chain[i].scope.Depth() > chain[j].scope.Depth()
    ensures chain != [] ==> |chain| <= chain[0].scope.Depth() + 1 <= 4
  {
    if |chain| > 1 {
      DescentIsShort(chain[1..]);
      assert chain[0].scope.Depth() > chain[1].scope.Depth();
    }
  }

  /** So `resolve` answers with the unique most specific provider, and with None
      exactly when nothing visible offers the id. */
  lemma ResolveIsMostSpecific(live: seq<Contribution>, kind: string, id: string, scope: Scope)
    requires DistinctKeys(live)
    requires forall c :: c in live && c.kind == kind && c.id == id ==> c.scope.WellNested()
    ensures match Resolve(live, kind, id, scope)
      case None => forall c :: c in live && c.kind == kind && c.id == id ==> !c.scope.Contains(scope)
      case Some(provider) =>
        exists best :: best in live && best.kind == kind && best.id == id && best.scope.Contains(scope)
          && best.provider == provider
          && forall c :: c in live && c.kind == kind && c.id == id && c.scope.Contains(scope) && c != best ==>
               c.scope.Contains(best.scope) && !best.scope.Contains(c.scope)
  {
    var chain := ResolveChain(live, kind, id, scope);
    ChainMembers(live, kind, id, scope);
    ChainIsNested(live, kind, id, scope);
    if chain == [] {
      forall c | c in live && c.kind == kind && c.id == id ensures !c.scope.Contains(scope) {
        assert c !in chain;
      }
    } else {
      var best := chain[0];
      assert best in chain;
      forall c | c in live && c.kind == kind && c.id == id && c.scope.Contains(scope) && c != best
        ensures c.scope.Contains(best.scope) && !best.scope.Contains(c.scope)
      {
        assert c in chain;
      }
    }
  }

  /** `resolve` finds a provider exactly when some live contribution of the kind and id
      stands in a containing scope. */
  lemma ResolveFinds(live: seq<Contribution>, kind: string, id: string, scope: Scope)
    ensures Resolve(live, kind, id, scope).Some? <==>
            exists c :: c in live && c.kind == kind && c.id == id && c.scope.Contains(scope)
  {
    ChainHeadIsTop(live, kind, id, scope);
    var chain := ResolveChain(live, kind, id, scope);
    if chain != [] {
      assert chain[0] in live;
    } else {
      assert forall x :: x in live ==> !Matches(x, kind, id, scope);
    }
  }

  /** A global contribution is found from every scope. */
  lemma GlobalIsFound(live: seq<Contribution>, c: Contribution, scope: Scope)
    requires c in live && c.scope == Scope("", "", "")
    ensures Resolve(live, c.kind, c.id, scope).Some?
    ensures (forall x :: x in live && x.kind == c.kind && x.id == c.id ==> x == c) ==>
              Resolve(live, c.kind, c.id, scope) == Some(c.provider)
  {
    ContainsByNames(c.scope, scope);
    ResolveFinds(live, c.kind, c.id, scope);
    ChainHeadIsTop(live, c.kind, c.id, scope);
  }

  /** The provider that answers: no match the request sees is deeper, or equally deep
      with a higher priority. */
  lemma ResolvePrefers(live: seq<Contribution>, kind: string, id: string, scope: Scope)
    ensures Resolve(live, kind, id, scope).Some? ==>
              exists best :: best in live && best.kind == kind && best.id == id && best.scope.Contains(scope)
                && Resolve(live, kind, id, scope) == Some(best.provider)
                && forall c :: c in live && c.kind == kind && c.id == id && c.scope.Contains(scope) ==>
                     && Level(c.scope) <= Level(best.scope)
                     && (Level(c.scope) == Level(best.scope) ==> c.priority <= best.priority)
  {
    ChainHeadIsTop(live, kind, id, scope);
    var chain := ResolveChain(live, kind, id, scope);
    if chain != [] {
      var best := chain[0];
      assert IsTop(best, live, kind, id, scope);
      forall c | c in live && c.kind == kind && c.id == id && c.scope.Contains(scope)
        ensures Level(c.scope) <= Level(best.scope)
        ensures Level(c.scope) == Level(best.scope) ==> c.priority <= best.priority
      {
        assert Matches(c, kind, id, scope) && !Outranks(c, best);
      }
    }
  }

  /** The deepest level that a scope names: worker, session, workspace, none. */
  function Level(scope: Scope): nat {
    match scope
    case Scope("", "", "") => 0
    case Scope(_, "", "") => 1
    case Scope(_, _, "") => 2
    case _ => 3
  }

  /** a is shown before b: its id comes first in the dictionary, or ids are equal and
      its scope is deeper, or as deep with a priority that is not lower. */
  ghost predicate ShownBefore(a: Contribution, b: Contribution) {
    if a.id != b.id then Text.Precedes(a.id, b.id)
    else Level(a.scope) > Level(b.scope) || (Level(a.scope) == Level(b.scope) && a.priority >= b.priority)
  }

  lemma ListOrderMeaning(a: Contribution, b: Contribution)
    requires LIST_ORDER(a, b)
    ensures ShownBefore(a, b)
  {
    Text.LeqMeaning(a.id, b.id);
  }

  /** What `list` shows, each contribution as often as it is live, and in which order. */
  lemma ListOrder(live: seq<Contribution>, kind: string, scope: Scope)
    ensures var visible := Visible(live, kind, scope);
            && (forall c :: c in visible <==> c in live && c.kind == kind && c.scope.Contains(scope))
            && (forall c :: c in visible ==> multiset(visible)[c] == multiset(live)[c])
            && (forall i, j :: 0 <= i < j < |visible| ==> ShownBefore(visible[i], visible[j]))
  {
    var seen := Filter(InView(kind, scope), live);
    var visible := Visible(live, kind, scope);
    ListOrderTotal();
    SortSorts(LIST_ORDER, seen);
    SortPermutes(LIST_ORDER, seen);
    SortMembers(LIST_ORDER, seen);
    FilterMembers(InView(kind, scope), live);
    forall c | c in visible ensures multiset(visible)[c] == multiset(live)[c] {
      FilterCount(InView(kind, scope), live, c);
    }
    forall i, j | 0 <= i < j < |visible| ensures ShownBefore(visible[i], visible[j]) {
      assert LIST_ORDER(visible[i], visible[j]);
      ListOrderMeaning(visible[i], visible[j]);
    }
  }

  // ----- registration order -----

  /** y is asked before x, wherever they stand in the registry. */
  predicate Outranks(y: Contribution, x: Contribution) {
    y.scope.Depth() > x.scope.Depth() || (y.scope.Depth() == x.scope.Depth() && y.priority > x.priority)
  }

  /** A visible match that no visible match outranks. */
  predicate IsTop(x: Contribution, live: seq<Contribution>, kind: string, id: string, scope: Scope) {
    && Matches(x, kind, id, scope)
    && forall y :: y in live && Matches(y, kind, id, scope) ==> !Outranks(y, x)
  }

  function Top(live: seq<Contribution>, kind: string, id: string, scope: Scope): Contribution -> bool {
    (x: Contribution) => IsTop(x, live, kind, id, scope)
  }

  /** For matches of one id the sort key is rank alone. */
  lemma ChainOrderIsRank(kind: string, id: string, scope: Scope, x: Contribution, y: Contribution)
    requires Matches(x, kind, id, scope) && Matches(y, kind, id, scope)
    ensures CHAIN_ORDER(x, y) <==> !Outranks(y, x)
  {
    Text.LeqTotal(id, id);
  }

  lemma ChainHeadIsTop(live: seq<Contribution>, kind: string, id: string, scope: Scope)
    ensures var chain := ResolveChain(live, kind, id, scope);
            if chain == [] then forall x :: x in live ==> !Matches(x, kind, id, scope)
            else chain[0] in live && IsTop(chain[0], live, kind, id, scope)
  {
    var p := InChain(kind, id, scope);
    var ours, chain := Filter(p, live), ResolveChain(live, kind, id, scope);
    ChainOrderTotal();
    SortSorts(CHAIN_ORDER, ours);
    SortMembers(CHAIN_ORDER, ours);
    FilterMembers(p, live);
    if chain != [] {
      assert chain[0] in chain;
      forall y | y in live && Matches(y, kind, id, scope) ensures !Outranks(y, chain[0]) {
        assert y in chain && CHAIN_ORDER(chain[0], chain[0]);
        ChainOrderIsRank(kind, id, scope, chain[0], y);
      }
    }
  }

  /** Who answers, for any registry: the earliest registered of the top matches. */
  lemma ResolveIsFirstTop(live: seq<Contribution>, kind: string, id: string, scope: Scope)
    ensures var tops := Filter(Top(live, kind, id, scope), live);
            Resolve(live, kind, id, scope) == if tops == [] then None else Some(tops[0].provider)
  {
    var p, top := InChain(kind, id, scope), Top(live, kind, id, scope);
    var ours, tops, chain := Filter(p, live), Filter(top, live), ResolveChain(live, kind, id, scope);
    ChainOrderTotal();
    FilterSort(CHAIN_ORDER, top, ours);
    FilterCompose(top, p, top, live);
    FilterMembers(top, live);
    forall x, y | x in tops && y in tops ensures CHAIN_ORDER(x, y) {
      ChainOrderIsRank(kind, id, scope, x, y);
    }
    SortTies(CHAIN_ORDER, tops);
    assert Filter(top, chain) == tops;
    ChainHeadIsTop(live, kind, id, scope);
    FilterMembers(top, chain);
    if chain != [] {
      FilterCons(top, chain[0], chain[1..]);
      assert chain == [chain[0]] + chain[1..];
    }
  }

  lemma TopPermutes(live: seq<Contribution>, live': seq<Contribution>, kind: string, id: string, scope: Scope)
    requires multiset(live) == multiset(live')
    ensures forall x :: IsTop(x, live, kind, id, scope) <==> IsTop(x, live', kind, id, scope)
  {
    SameMultiset(live, live');
  }

  lemma ToFront(live: seq<Contribution>, x: Contribution) returns (rest: seq<Contribution>)
    requires x in live
    ensures multiset([x] + rest) == multiset(live)
  {
    var k :| 0 <= k < |live| && live[k] == x;
    rest := live[..k] + live[k + 1..];
    assert live == live[..k] + [x] + live[k + 1..];
  }

  /** A top match that was registered first answers. */
  lemma FirstTopAnswers(x: Contribution, rest: seq<Contribution>, kind: string, id: string, scope: Scope)
    requires IsTop(x, [x] + rest, kind, id, scope)
    ensures Resolve([x] + rest, kind, id, scope) == Some(x.provider)
  {
    ResolveIsFirstTop([x] + rest, kind, id, scope);
    FilterCons(Top([x] + rest, kind, id, scope), x, rest);
  }

  /** All top matches of the registry name one provider. */
  ghost predicate OneTopProvider(live: seq<Contribution>, kind: string, id: string, scope: Scope) {
    forall x, y :: x in live && y in live && IsTop(x, live, kind, id, scope) && IsTop(y, live, kind, id, scope) ==>
      x.provider == y.provider
  }

  lemma OneProviderAnswers(live: seq<Contribution>, live': seq<Contribution>, kind: string, id: string, scope: Scope)
    requires OneTopProvider(live, kind, id, scope) && multiset(live') == multiset(live)
    ensures Resolve(live', kind, id, scope) == Resolve(live, kind, id, scope)
  {
    SameMultiset(live, live');
    TopPermutes(live, live', kind, id, scope);
    ChainHeadIsTop(live, kind, id, scope);
    ChainHeadIsTop(live', kind, id, scope);
  }

  /** When the answer of `resolve` is settled by what is registered, and not by the
      order of registration: exactly when all top matches name one provider. */
  lemma OrderIndependence(live: seq<Contribution>, kind: string, id: string, scope: Scope)
    ensures (forall live' :: multiset(live') == multiset(live) ==>
               Resolve(live', kind, id, scope) == Resolve(live, kind, id, scope))
            <==> OneTopProvider(live, kind, id, scope)
  {
    if forall live' :: multiset(live') == multiset(live) ==>
         Resolve(live', kind, id, scope) == Resolve(live, kind, id, scope) {
      forall x, y | x in live && y in live && IsTop(x, live, kind, id, scope) && IsTop(y, live, kind, id, scope)
        ensures x.provider == y.provider
      {
        TopAnswersSomewhere(live, kind, id, scope, x);
        TopAnswersSomewhere(live, kind, id, scope, y);
      }
    }
    if OneTopProvider(live, kind, id, scope) {
      forall live' | multiset(live') == multiset(live)
        ensures Resolve(live', kind, id, scope) == Resolve(live, kind, id, scope)
      {
        OneProviderAnswers(live, live', kind, id, scope);
      }
    }
  }

  /** Every top match answers under some order of registration. */
  lemma TopAnswersSomewhere(live: seq<Contribution>, kind: string, id: string, scope: Scope, x: Contribution)
    requires x in live && IsTop(x, live, kind, id, scope)
    ensures exists live' :: multiset(live') == multiset(live) && Resolve(live', kind, id, scope) == Some(x.provider)
  {
    var rest := ToFront(live, x);
    TopPermutes(live, [x] + rest, kind, id, scope);
    FirstTopAnswers(x, rest, kind, id, scope);
  }

  /** With well-nested scopes there is one top match, so order never shows. */
  lemma WellNestedOrder(live: seq<Contribution>, live': seq<Contribution>, kind: string, id: string, scope: Scope)
    requires DistinctKeys(live) && multiset(live') == multiset(live)
    requires forall c :: c in live && c.kind == kind && c.id == id ==> c.scope.WellNested()
    ensures Resolve(live', kind, id, scope) == Resolve(live, kind, id, scope)
  {
    forall x, y | x in live && y in live && IsTop(x, live, kind, id, scope) && IsTop(y, live, kind, id, scope)
      ensures x.provider == y.provider
    {
      assert !Outranks(x, y) && !Outranks(y, x);
      WellNestedChain(x.scope, y.scope, scope);
      SameKey(live, x, y);
    }
    OneProviderAnswers(live, live', kind, id, scope);
  }

  /** Without well-nesting two providers can tie, although here one scope contains
      the other, and the earlier registration answers. */
  lemma TiedProviders()
    ensures var a := Contribution("t", "k", "first", [], Scope("w", "s", ""), 0);
            var b := Contribution("t", "k", "second", [], Scope("", "s", ""), 0);
            && b.scope.Contains(a.scope)
            && !OneTopProvider([a] + [b], "k", "t", Scope("w", "s", ""))
            && Resolve([a] + [b], "k", "t", Scope("w", "s", "")) == Some("first")
            && Resolve([b] + [a], "k", "t", Scope("w", "s", "")) == Some("second")
  {
    var r := Scope("w", "s", "");
    var a := Contribution("t", "k", "first", [], r, 0);
    var b := Contribution("t", "k", "second", [], Scope("", "s", ""), 0);
    assert !Outranks(a, b) && !Outranks(b, a);
    FirstTopAnswers(a, [b], "k", "t", r);
    FirstTopAnswers(b, [a], "k", "t", r);
    var live := [a] + [b];
    assert live[0] == a && live[1] == b && IsTop(a, live, "k", "t", r) && IsTop(b, live, "k", "t", r);
  }

  /** The views of a reachable kernel meet the premise on keys. */
  lemma ReachableKeysDistinct(ops: seq<Op>)
    ensures DistinctKeys(Contributions(Run(INITIAL, ops).entries))
  {
    RunDiscipline(INITIAL, ops);
    ContributionsMeaning(Run(INITIAL, ops).entries);
  }
}
