/** Resolving file references: exact paths at once, the rest by one shared walk over
    the workspace with saturating match lists and an early exit. */
module FileReferences {
  import opened Sequences

  /** A reference after trimming and path resolution: blank; outside the workspace
      or without a file name; an existing file; or a name to look for. */
  datatype Reference =
    | Blank
    | Unusable(raw: string)
    | Exact(path: string)
    | Fuzzy(raw: string, name: string)

  /** A walked file: its case-folded name, and its label unless it lies outside. */
  datatype File = File(folded: string, path: Option<string>)

  type Walk = seq<seq<File>>

  /** `needle in text`. */
  predicate Within(needle: string, text: string) {
    needle <= text || (text != "" && Within(needle, text[1..]))
  }

  // ----- the batch definition -----

  /** The labels of all files inside the workspace that match the name. */
  function FilesHits(files: seq<File>, name: string): seq<string> {
    if files == [] then [] else
      var init, f := FilesHits(files[..|files| - 1], name), files[|files| - 1];
      if Within(name, f.folded) && f.path.Some? then init + [f.path.value] else init
  }

  /** One reference's own full walk. */
  function Hits(walk: Walk, name: string): seq<string> {
    FilesHits(Concat(walk), name)
  }

  /** The label, when exactly one file matches. */
  function Unique(hits: seq<string>): Option<string> {
    if |hits| == 1 then Some(hits[0]) else None
  }

  /** What one reference resolves to by itself. */
  function Resolution(r: Reference, walk: Walk): Option<string> {
    match r
    case Exact(path) => Some(path)
    case Fuzzy(_, name) => Unique(Hits(walk, name))
    case _ => None
  }

  function Resolved(references: seq<Reference>, walk: Walk): seq<string> {
    if references == [] then [] else
      var init := Resolved(references[..|references| - 1], walk);
      match Resolution(references[|references| - 1], walk)
      case Some(path) => init + [path]
      case None => init
  }

  /** The references that could not even be looked for. */
  function Rejected(references: seq<Reference>): seq<string> {
    if references == [] then [] else
      var init, r := Rejected(references[..|references| - 1]), references[|references| - 1];
      if r.Unusable? then init + [r.raw] else init
  }

  /** The references whose name matched no file, or several. */
  function Ambiguous(references: seq<Reference>, walk: Walk): seq<string> {
    if references == [] then [] else
      var init, r := Ambiguous(references[..|references| - 1], walk), references[|references| - 1];
      if r.Fuzzy? && Unique(Hits(walk, r.name)) == None then init + [r.raw] else init
  }

  function Expected(references: seq<Reference>, walk: Walk, strict: bool): Result<seq<string>, seq<string>> {
    var unresolved := Rejected(references) + Ambiguous(references, walk);
    if strict && unresolved != [] then Err(Dedup(unresolved))
    else Ok(Take(8, Dedup(Resolved(references, walk))))
  }

  // ----- the algorithm -----

  /** A name to look for, the slot kept for it and the matches found so far. */
  datatype Pending = Pending(slot: nat, raw: string, name: string, matches: seq<string>)

  /** The first loop: slots in order, names to look for, and the rejected. */
  method Classify(references: seq<Reference>)
    returns (slots: seq<Option<string>>, pending: seq<Pending>, unresolved: seq<string>)
    ensures slots == Slots(references) && pending == PendingOf(references) && unresolved == Rejected(references)
  {
    slots, pending, unresolved := [], [], [];
    for n := 0 to |references|
      invariant slots == Slots(references[..n]) && pending == PendingOf(references[..n])
      invariant unresolved == Rejected(references[..n])
    {
      assert references[..n + 1][..n] == references[..n];
      match references[n] {
        case Blank =>
        case Unusable(raw) => unresolved := unresolved + [raw];
        case Exact(path) => slots := slots + [Some(path)];
        case Fuzzy(raw, name) =>
          pending := pending + [Pending(|slots|, raw, name, [])];
          slots := slots + [None];
      }
    }
    assert references[..|references|] == references;
  }

  function Slots(references: seq<Reference>): seq<Option<string>> {
    if references == [] then [] else
      var init, r := Slots(references[..|references| - 1]), references[|references| - 1];
      if r.Exact? then init + [Some(r.path)] else if r.Fuzzy? then init + [None] else init
  }

  function PendingOf(references: seq<Reference>): seq<Pending> {
    if references == [] then [] else
      var init, r := references[..|references| - 1], references[|references| - 1];
      if r.Fuzzy? then PendingOf(init) + [Pending(|Slots(init)|, r.raw, r.name, [])] else PendingOf(init)
  }

  /** pending after seeing some files: up to two matches each. */
  ghost predicate Seen(before: seq<Pending>, pending: seq<Pending>, files: seq<File>) {
    && |pending| == |before|
    && (forall i :: 0 <= i < |pending| ==>
        pending[i] == before[i].(matches := Take(2, FilesHits(files, before[i].name))))
  }

  /** One file of the walk: it is looked at only when some unsaturated name matches. */
  method SeeFile(ghost before: seq<Pending>, pending: seq<Pending>, ghost files: seq<File>, file: File)
    returns (r: seq<Pending>)
    requires Seen(before, pending, files)
    ensures Seen(before, r, files + [file])
  {
    assert (files + [file])[..|files|] == files;
    r := pending;
    if file.path.None?
      || forall i :: 0 <= i < |pending| ==> !(|pending[i].matches| < 2 && Within(pending[i].name, file.folded))
    {
      return;
    }
    for i := 0 to |pending|
      invariant |r| == |pending|
      invariant forall k :: i <= k < |pending| ==> r[k] == pending[k]
      invariant forall k :: 0 <= k < i ==>
          r[k] == before[k].(matches := Take(2, FilesHits(files + [file], before[k].name)))
    {
      var p := pending[i];
      if |p.matches| < 2 && Within(p.name, file.folded) {
        r := r[i := p.(matches := p.matches + [file.path.value])];
      }
    }
  }

  predicate Saturated(pending: seq<Pending>) {
    forall i :: 0 <= i < |pending| ==> |pending[i].matches| >= 2
  }

  /** The shared walk, left after the directory that saturates every name. */
  method WalkOnce(before: seq<Pending>, walk: Walk) returns (pending: seq<Pending>)
    requires forall i :: 0 <= i < |before| ==> before[i].matches == []
    ensures Seen(before, pending, Concat(walk))
  {
    pending := before;
    ghost var files: seq<File> := [];
    assert Concat(walk[..0]) == [];
    for d := 0 to |walk|
      invariant files == Concat(walk[..d]) && Seen(before, pending, files)
    {
      assert walk[..d + 1] == walk[..d] + [walk[d]];
      ConcatSnoc(walk[..d], walk[d]);
      ghost var start := files;
      for f := 0 to |walk[d]|
        invariant files == start + walk[d][..f] && Seen(before, pending, files)
      {
        pending := SeeFile(before, pending, files, walk[d][f]);
        assert walk[d][..f + 1] == walk[d][..f] + [walk[d][f]];
        files := files + [walk[d][f]];
      }
      assert walk[d][..|walk[d]|] == walk[d];
      if Saturated(pending) {
        assert walk == walk[..d + 1] + walk[d + 1..];
        ConcatAppend(walk[..d + 1], walk[d + 1..]);
        SaturatedStays(before, pending, files, Concat(walk[d + 1..]));
        return;
      }
    }
    assert walk[..|walk|] == walk;
  }

  lemma {:induction false} HitsGrow(files: seq<File>, more: seq<File>, name: string)
    ensures FilesHits(files, name) <= FilesHits(files + more, name)
    decreases |more|
  {
    if more == [] {
      assert files + more == files;
    } else {
      var init := more[..|more| - 1];
      HitsGrow(files, init, name);
      assert (files + more)[..|files + more| - 1] == files + init;
    }
  }

  /** Nothing later can change a saturated list. */
  lemma SaturatedStays(before: seq<Pending>, pending: seq<Pending>, files: seq<File>, more: seq<File>)
    requires Seen(before, pending, files) && Saturated(pending)
    ensures Seen(before, pending, files + more)
  {
    forall i | 0 <= i < |pending|
      ensures pending[i] == before[i].(matches := Take(2, FilesHits(files + more, before[i].name)))
    {
      HitsGrow(files, more, before[i].name);
    }
  }

  /** Two matches tell as much as all of them. */
  lemma UniqueOfTwo(hits: seq<string>)
    ensures Unique(Take(2, hits)) == Unique(hits)
  {}

  function FillSlots(slots: seq<Option<string>>, pending: seq<Pending>): seq<Option<string>> {
    if pending == [] then slots else
      var init, p := FillSlots(slots, pending[..|pending| - 1]), pending[|pending| - 1];
      if |p.matches| == 1 && p.slot < |init| then init[p.slot := Some(p.matches[0])] else init
  }

  function Failing(pending: seq<Pending>): seq<string> {
    if pending == [] then [] else
      var init, p := Failing(pending[..|pending| - 1]), pending[|pending| - 1];
      if |p.matches| == 1 then init else init + [p.raw]
  }

  function Present(slots: seq<Option<string>>): seq<string> {
    if slots == [] then [] else
      var init, s := Present(slots[..|slots| - 1]), slots[|slots| - 1];
      if s.Some? then init + [s.value] else init
  }

  // ----- both together -----

  function Searched(pending: seq<Pending>, walk: Walk): seq<Pending> {
    if pending == [] then [] else
      var init, p := pending[..|pending| - 1], pending[|pending| - 1];
      Searched(init, walk) + [p.(matches := Take(2, Hits(walk, p.name)))]
  }

  lemma {:induction false} SeenIsSearched(before: seq<Pending>, pending: seq<Pending>, walk: Walk)
    requires Seen(before, pending, Concat(walk))
    ensures pending == Searched(before, walk)
  {
    if before != [] {
      var n := |before| - 1;
      SeenIsSearched(before[..n], pending[..n], walk);
      assert pending == pending[..n] + [pending[n]];
    }
  }

  function FinalSlots(references: seq<Reference>, walk: Walk): seq<Option<string>> {
    if references == [] then [] else
      var init, r := FinalSlots(references[..|references| - 1], walk), references[|references| - 1];
      if r.Exact? || r.Fuzzy? then init + [Resolution(r, walk)] else init
  }

  lemma PresentSnoc(slots: seq<Option<string>>, x: Option<string>)
    ensures Present(slots + [x]) == match x case Some(v) => Present(slots) + [v] case None => Present(slots)
  {
    assert (slots + [x])[..|slots|] == slots;
  }

  lemma {:induction false} PresentIsResolved(references: seq<Reference>, walk: Walk)
    ensures Present(FinalSlots(references, walk)) == Resolved(references, walk)
  {
    if references != [] {
      var init, r := references[..|references| - 1], references[|references| - 1];
      PresentIsResolved(init, walk);
      PresentSnoc(FinalSlots(init, walk), Resolution(r, walk));
    }
  }

  lemma {:induction false} FillKeepsLast(slots: seq<Option<string>>, x: Option<string>, pending: seq<Pending>)
    requires InRange(pending, |slots|)
    ensures |FillSlots(slots, pending)| == |slots|
    ensures FillSlots(slots + [x], pending) == FillSlots(slots, pending) + [x]
  {
    if pending != [] {
      FillKeepsLast(slots, x, pending[..|pending| - 1]);
    }
  }

  lemma {:induction false} SearchedSlots(pending: seq<Pending>, walk: Walk)
    ensures |Searched(pending, walk)| == |pending|
    ensures forall i :: 0 <= i < |pending| ==>
        Searched(pending, walk)[i] == pending[i].(matches := Take(2, Hits(walk, pending[i].name)))
  {
    if pending != [] { SearchedSlots(pending[..|pending| - 1], walk); }
  }

  lemma {:induction false} SlotsInRange(references: seq<Reference>)
    ensures forall i :: 0 <= i < |PendingOf(references)| ==> PendingOf(references)[i].slot < |Slots(references)|
    ensures forall i :: 0 <= i < |PendingOf(references)| ==> PendingOf(references)[i].matches == []
  {
    if references != [] { SlotsInRange(references[..|references| - 1]); }
  }

  lemma {:induction false} SearchedSnoc(pending: seq<Pending>, p: Pending, walk: Walk)
    ensures Searched(pending + [p], walk) == Searched(pending, walk) + [p.(matches := Take(2, Hits(walk, p.name)))]
  {
    assert (pending + [p])[..|pending|] == pending;
  }

  lemma {:induction false} FillSnoc(slots: seq<Option<string>>, pending: seq<Pending>, p: Pending)
    requires p.slot < |FillSlots(slots, pending)|
    ensures FillSlots(slots, pending + [p]) ==
            var init := FillSlots(slots, pending);
            if |p.matches| == 1 then init[p.slot := Some(p.matches[0])] else init
    ensures Failing(pending + [p]) == Failing(pending) + if |p.matches| == 1 then [] else [p.raw]
  {
    assert (pending + [p])[..|pending|] == pending;
  }

  /** Every search knows a slot that is there. */
  ghost predicate InRange(pending: seq<Pending>, n: nat) {
    forall i :: 0 <= i < |pending| ==> pending[i].slot < n
  }

  lemma {:induction false} SearchedInRange(references: seq<Reference>, walk: Walk)
    ensures InRange(Searched(PendingOf(references), walk), |Slots(references)|)
  {
    SlotsInRange(references);
    SearchedSlots(PendingOf(references), walk);
  }

  /** One more name, with up to two of its hits: its slot gets the unique one. */
  lemma {:induction false} FillOneMore(slots: seq<Option<string>>, found: seq<Pending>, raw: string, name: string,
                                       hits: seq<string>)
    requires InRange(found, |slots|)
    ensures var more := found + [Pending(|slots|, raw, name, Take(2, hits))];
            && FillSlots(slots + [None], more) == FillSlots(slots, found) + [Unique(hits)]
            && Failing(more) == Failing(found) + if Unique(hits) == None then [raw] else []
  {
    FillKeepsLast(slots, None, found);
    FillSnoc(slots + [None], found, Pending(|slots|, raw, name, Take(2, hits)));
    UniqueOfTwo(hits);
  }

  /** The last reference is a name: its slot gets the answer of its own walk. */
  lemma {:induction false} FilledFuzzy(init: seq<Reference>, raw: string, name: string, walk: Walk)
    ensures var found := Searched(PendingOf(init), walk); var answer := Unique(Hits(walk, name));
            var more := Searched(PendingOf(init) + [Pending(|Slots(init)|, raw, name, [])], walk);
            && FillSlots(Slots(init) + [None], more) == FillSlots(Slots(init), found) + [answer]
            && Failing(more) == Failing(found) + if answer == None then [raw] else []
  {
    SearchedInRange(init, walk);
    SearchedSnoc(PendingOf(init), Pending(|Slots(init)|, raw, name, []), walk);
    FillOneMore(Slots(init), Searched(PendingOf(init), walk), raw, name, Hits(walk, name));
  }

  /** Filling the slots from the shared walk gives every reference its own answer. */
  lemma {:induction false} FilledIsFinal(references: seq<Reference>, walk: Walk)
    ensures FillSlots(Slots(references), Searched(PendingOf(references), walk)) == FinalSlots(references, walk)
    ensures Failing(Searched(PendingOf(references), walk)) == Ambiguous(references, walk)
    ensures |FinalSlots(references, walk)| == |Slots(references)|
  {
    if references != [] {
      var init := references[..|references| - 1];
      FilledIsFinal(init, walk);
      match references[|references| - 1] {
        case Exact(path) =>
          SearchedInRange(init, walk);
          FillKeepsLast(Slots(init), Some(path), Searched(PendingOf(init), walk));
        case Fuzzy(raw, name) => FilledFuzzy(init, raw, name, walk);
        case _ =>
      }
    }
  }

  /** The last loop: single matches go into their slots, the rest is unresolved. */
  method Fill(slots: seq<Option<string>>, found: seq<Pending>, rejected: seq<string>)
    returns (filled: seq<Option<string>>, unresolved: seq<string>)
    requires forall i :: 0 <= i < |found| ==> found[i].slot < |slots|
    ensures filled == FillSlots(slots, found) && unresolved == rejected + Failing(found)
  {
    filled, unresolved := slots, rejected;
    for k := 0 to |found|
      invariant filled == FillSlots(slots, found[..k]) && |filled| == |slots|
      invariant unresolved == rejected + Failing(found[..k])
    {
      assert found[..k + 1][..k] == found[..k];
      var p := found[k];
      if |p.matches| == 1 {
        filled := filled[p.slot := Some(p.matches[0])];
      } else {
        unresolved := unresolved + [p.raw];
      }
    }
    assert found[..|found|] == found;
  }

  /** `resolve_file_references`: the shared, saturating, early-leaving walk answers
      every reference as its own full walk would. */
  method ResolveFileReferences(references: seq<Reference>, walk: Walk, strict: bool)
    returns (r: Result<seq<string>, seq<string>>)
    ensures r == Expected(references, walk, strict)
  {
    var slots, pending, unresolved := Classify(references);
    SlotsInRange(references);
    FilledIsFinal(references, walk);
    PresentIsResolved(references, walk);
    if pending != [] {
      var found := WalkOnce(pending, walk);
      SeenIsSearched(pending, found, walk);
      SearchedSlots(pending, walk);
      slots, unresolved := Fill(slots, found, unresolved);
    } else {
      assert unresolved + [] == unresolved;
    }
    if strict && unresolved != [] {
      return Err(Dedup(unresolved));
    }
    return Ok(Take(8, Dedup(Present(slots))));
  }

  // ----- what the answer means -----

  lemma {:induction false} ResolvedMembers(references: seq<Reference>, walk: Walk, path: string)
    ensures path in Resolved(references, walk) <==> exists r :: r in references && Resolution(r, walk) == Some(path)
  {
    if references != [] {
      var init, r := references[..|references| - 1], references[|references| - 1];
      ResolvedMembers(init, walk, path);
      assert references == init + [r];
      assert r in references;
    }
  }

  lemma {:induction false} UnresolvedMembers(references: seq<Reference>, walk: Walk)
    ensures Rejected(references) + Ambiguous(references, walk) == [] <==>
            forall r :: r in references && !r.Blank? ==> Resolution(r, walk).Some?
  {
    if references != [] {
      var init, r := references[..|references| - 1], references[|references| - 1];
      UnresolvedMembers(init, walk);
      assert references == init + [r];
      assert r in references;
    }
  }

  /** At most eight labels, none twice, each the answer to some reference; and the
      strict form fails exactly when a reference that is not blank has no answer. */
  lemma ResolutionMeaning(references: seq<Reference>, walk: Walk, strict: bool)
    ensures match Expected(references, walk, strict)
      case Ok(paths) =>
        && |paths| <= 8 && Distinct(paths)
        && (forall p :: p in paths ==> exists r :: r in references && Resolution(r, walk) == Some(p))
        && (|paths| < 8 ==> forall r :: r in references && Resolution(r, walk).Some? ==>
            Resolution(r, walk).value in paths)
      case Err(_) => strict
    ensures Expected(references, walk, strict).Err? <==>
            strict && exists r :: r in references && !r.Blank? && Resolution(r, walk) == None
  {
    UnresolvedMembers(references, walk);
    var all := Dedup(Resolved(references, walk));
    forall p ensures p in all <==> exists r :: r in references && Resolution(r, walk) == Some(p) {
      ResolvedMembers(references, walk, p);
    }
  }

  // ----- what is found -----

  /** The match test is the substring test. */
  lemma {:induction false} WithinMeaning(needle: string, text: string)
    ensures Within(needle, text) <==> exists i :: 0 <= i <= |text| && needle <= text[i..]
  {
    assert text[0..] == text;
    if text != "" {
      WithinMeaning(needle, text[1..]);
      if i :| 0 <= i <= |text[1..]| && needle <= text[1..][i..] {
        assert text[i + 1..] == text[1..][i..];
      }
      if i :| 0 < i <= |text| && needle <= text[i..] {
        assert text[1..][i - 1..] == text[i..];
      }
    }
  }

  /** The k-th walked file lies inside the workspace and has the needle in its name. */
  ghost predicate FileMatches(files: seq<File>, name: string, k: int) {
    && 0 <= k < |files| && files[k].path.Some?
    && exists i :: 0 <= i <= |files[k].folded| && name <= files[k].folded[i..]
  }

  /** The k-th walked file is the only match, and p is its label. */
  ghost predicate OnlyMatch(files: seq<File>, name: string, p: string, k: int) {
    FileMatches(files, name, k) && files[k].path == Some(p) && forall m :: FileMatches(files, name, m) ==> m == k
  }

  /** Exactly one walked file matches, and p is its label. */
  ghost predicate MatchedOnce(files: seq<File>, name: string, p: string) {
    exists k :: OnlyMatch(files, name, p, k)
  }

  lemma MatchesSnoc(files: seq<File>, f: File, name: string, k: int)
    ensures FileMatches(files + [f], name, k) <==>
            FileMatches(files, name, k) || (k == |files| && f.path.Some? && Within(name, f.folded))
  {
    WithinMeaning(name, f.folded);
    if 0 <= k < |files| { assert (files + [f])[k] == files[k]; }
  }

  lemma {:induction false} HitsCount(files: seq<File>, name: string)
    ensures FilesHits(files, name) == [] <==> forall k :: !FileMatches(files, name, k)
    ensures forall p :: FilesHits(files, name) == [p] <==> MatchedOnce(files, name, p)
  {
    if files != [] {
      var init, f := files[..|files| - 1], files[|files| - 1];
      assert files == init + [f];
      HitsCount(init, name);
      if f.path.Some? && Within(name, f.folded) {
        MatchesSnoc(init, f, name, |init|);
        forall p ensures FilesHits(files, name) == [p] <==> MatchedOnce(files, name, p) {
          LastMatches(init, f, name, p);
        }
      } else {
        SameMatches(init, f, name);
      }
    }
  }

  lemma LastMatches(init: seq<File>, f: File, name: string, p: string)
    requires f.path.Some? && Within(name, f.folded)
    requires FilesHits(init, name) == [] <==> forall k :: !FileMatches(init, name, k)
    ensures FilesHits(init + [f], name) == [p] <==> MatchedOnce(init + [f], name, p)
  {
    var files := init + [f];
    assert files[..|init|] == init;
    MatchesSnoc(init, f, name, |init|);
    if FilesHits(init, name) == [] {
      forall k ensures FileMatches(files, name, k) <==> k == |init| { MatchesSnoc(init, f, name, k); }
      assert FilesHits(files, name) == [f.path.value];
      assert [f.path.value] == [p] <==> f.path.value == p by { assert [p][0] == p; }
      assert OnlyMatch(files, name, p, |init|) <==> p == f.path.value;
    } else {
      var k :| FileMatches(init, name, k);
      MatchesSnoc(init, f, name, k);
      assert FileMatches(files, name, k) && FileMatches(files, name, |init|) && k != |init|;
    }
  }

  /** A file that does not match changes nothing. */
  lemma SameMatches(init: seq<File>, f: File, name: string)
    requires !(f.path.Some? && Within(name, f.folded))
    ensures forall k :: FileMatches(init + [f], name, k) <==> FileMatches(init, name, k)
    ensures forall p, k :: OnlyMatch(init + [f], name, p, k) <==> OnlyMatch(init, name, p, k)
    ensures forall p :: MatchedOnce(init + [f], name, p) <==> MatchedOnce(init, name, p)
  {
    forall k ensures FileMatches(init + [f], name, k) <==> FileMatches(init, name, k) {
      MatchesSnoc(init, f, name, k);
    }
  }

  lemma OneHit(hits: seq<string>, p: string)
    ensures Unique(hits) == Some(p) <==> hits == [p]
  {
    if |hits| == 1 { assert hits == [hits[0]]; }
  }

  /** What a name resolves to: the label of the only walked file inside the workspace
      that has it in its file name. */
  lemma ResolutionOfName(raw: string, name: string, walk: Walk, p: string)
    ensures Resolution(Fuzzy(raw, name), walk) == Some(p) <==> MatchedOnce(Concat(walk), name, p)
  {
    HitsCount(Concat(walk), name);
    OneHit(Hits(walk, name), p);
  }

  /** What one reference resolves to: an existing file to itself, a name as above,
      and everything else to nothing. */
  lemma ResolutionOfOne(r: Reference, walk: Walk, p: string)
    ensures Resolution(r, walk) == Some(p) <==>
              (r.Exact? && r.path == p) || (r.Fuzzy? && MatchedOnce(Concat(walk), r.name, p))
  {
    match r
    case Blank =>
    case Unusable(_) =>
    case Exact(path) => assert Resolution(r, walk) == Some(path);
    case Fuzzy(raw, name) => ResolutionOfName(raw, name, walk, p);
  }

  // ----- in which order -----

  /** The n-th reference resolves to the label. */
  ghost predicate ResolvesAt(references: seq<Reference>, walk: Walk, path: string, n: int) {
    0 <= n < |references| && Resolution(references[n], walk) == Some(path)
  }

  /** Some reference resolves to p before any resolves to q. */
  ghost predicate FirstResolved(references: seq<Reference>, walk: Walk, p: string, q: string) {
    exists n :: ResolvesAt(references, walk, p, n) && forall m :: ResolvesAt(references, walk, q, m) ==> n < m
  }

  lemma {:induction false} ResolvedInOrder(references: seq<Reference>, walk: Walk, p: string, q: string)
    ensures Earlier(Resolved(references, walk), p, q) ==> FirstResolved(references, walk, p, q)
  {
    if references != [] {
      var init, r := references[..|references| - 1], references[|references| - 1];
      var before := Resolved(init, walk);
      assert references == init + [r];
      ResolvedInOrder(init, walk, p, q);
      ResolvedMembers(init, walk, q);
      if Earlier(before, p, q) {
        FirstResolvedSnoc(init, r, walk, p, q);
      } else if Resolution(r, walk).Some? {
        EarlierMore(before, Resolution(r, walk).value, p, q);
        if Resolution(r, walk) == Some(p) && p != q && q !in before { NewlyResolved(init, r, walk, p, q); }
      }
    }
  }

  lemma FirstResolvedSnoc(init: seq<Reference>, r: Reference, walk: Walk, p: string, q: string)
    requires FirstResolved(init, walk, p, q)
    ensures FirstResolved(init + [r], walk, p, q)
  {
    var n :| ResolvesAt(init, walk, p, n) && forall m :: ResolvesAt(init, walk, q, m) ==> n < m;
    assert ResolvesAt(init + [r], walk, p, n);
    forall m | ResolvesAt(init + [r], walk, q, m) ensures n < m {
      if m < |init| { assert ResolvesAt(init, walk, q, m); }
    }
  }

  lemma NewlyResolved(init: seq<Reference>, r: Reference, walk: Walk, p: string, q: string)
    requires Resolution(r, walk) == Some(p) && p != q
    requires forall x :: x in init ==> Resolution(x, walk) != Some(q)
    ensures FirstResolved(init + [r], walk, p, q)
  {
    assert ResolvesAt(init + [r], walk, p, |init|);
    forall m ensures !ResolvesAt(init + [r], walk, q, m) {
      if 0 <= m < |init| { assert (init + [r])[m] == init[m] && init[m] in init; }
    }
  }

  /** The labels come in the order in which references first resolve to them, and they
      are the first eight: none left out is resolved before one that is there. */
  lemma ResolutionOrder(references: seq<Reference>, walk: Walk, strict: bool)
    requires Expected(references, walk, strict).Ok?
    ensures var paths := Expected(references, walk, strict).value;
            && (forall i, j :: 0 <= i < j < |paths| ==> FirstResolved(references, walk, paths[i], paths[j]))
            && (forall p, q :: p in paths && q !in paths && q in Resolved(references, walk) ==>
                  FirstResolved(references, walk, p, q))
  {
    var resolved := Resolved(references, walk);
    var all, paths := Dedup(resolved), Expected(references, walk, strict).value;
    DedupOrder(resolved);
    forall i, j | 0 <= i < j < |all| ensures FirstResolved(references, walk, all[i], all[j]) {
      ResolvedInOrder(references, walk, all[i], all[j]);
    }
    forall p, q | p in paths && q !in paths && q in resolved ensures FirstResolved(references, walk, p, q) {
      assert q in all;
      var i :| 0 <= i < |paths| && paths[i] == p;
      var j :| 0 <= j < |all| && all[j] == q;
      assert j >= |paths|;
    }
  }

  lemma {:induction false} UnresolvedListed(references: seq<Reference>, walk: Walk, raw: string)
    ensures raw in Rejected(references) + Ambiguous(references, walk) <==>
            exists r :: r in references && Resolution(r, walk) == None
              && ((r.Unusable? && r.raw == raw) || (r.Fuzzy? && r.raw == raw))
  {
    if references != [] {
      var init, r := references[..|references| - 1], references[|references| - 1];
      UnresolvedListed(init, walk, raw);
      assert references == init + [r];
      assert r in references;
    }
  }

  /** The strict error names, once each, the references that have no answer. */
  lemma StrictErrorNames(references: seq<Reference>, walk: Walk)
    requires Expected(references, walk, true).Err?
    ensures var names := Expected(references, walk, true).error;
            && Distinct(names)
            && forall raw :: raw in names <==>
                 exists r :: r in references && Resolution(r, walk) == None
                   && ((r.Unusable? && r.raw == raw) || (r.Fuzzy? && r.raw == raw))
  {
    var names := Expected(references, walk, true).error;
    forall raw ensures raw in names <==>
      exists r :: r in references && Resolution(r, walk) == None
        && ((r.Unusable? && r.raw == raw) || (r.Fuzzy? && r.raw == raw))
    {
      UnresolvedListed(references, walk, raw);
    }
  }
}
