/** What becomes of questions over every history: how long they stay pending, which
    answer they accept and what `ask` returns. */
module InteractionQuestions {
  import opened Sequences
  import opened Interaction
  import opened InteractionRuns
  import Text

  // ----- questions -----

  /** Each future is settled at most once: later steps keep what it became, and an
      ended question keeps its outcome. */
  lemma {:induction false} SettledOnce(mode: Mode, ops: seq<Op>, later: seq<Op>, q: nat)
    requires q < |Run(mode, ops).questions|
    ensures q < |Run(mode, ops + later).questions|
    ensures var x, y := Run(mode, ops).questions[q], Run(mode, ops + later).questions[q];
            && (x.future != Waiting ==> y.future == x.future)
            && (x.stage.Finished? ==> y.stage == x.stage)
    decreases |later|
  {
    if later == [] {
      assert ops + later == ops;
    } else {
      var init, op := later[..|later| - 1], later[|later| - 1];
      SettledOnce(mode, ops, init, q);
      EveryRunIsClean(mode, ops + init);
      QuestionStep(Run(mode, ops + init), op, q);
      assert (ops + later)[..|ops + later| - 1] == ops + init && (ops + later)[|ops + later| - 1] == op;
    }
  }

  /** The trimmed texts of the calls of `answer` that returned true for q. */
  function AcceptedAnswers(mode: Mode, ops: seq<Op>, q: nat): seq<string> {
    if ops == [] then [] else
      var init, op := ops[..|ops| - 1], ops[|ops| - 1];
      var before := AcceptedAnswers(mode, init, q);
      if op.Answer? && op.question == q && Accepts(Run(mode, init), q, op.text)
      then before + [Strip(op.text)] else before
  }

  /** The future holds the accepted answer, if there is one, and no other. */
  predicate Holds(future: FutureState, accepted: seq<string>) {
    if future.Resolved? then accepted == [future.text] else accepted == []
  }

  lemma RunSnoc(mode: Mode, ops: seq<Op>, op: Op, q: nat)
    ensures Run(mode, ops + [op]) == Step(Run(mode, ops), op)
    ensures AcceptedAnswers(mode, ops + [op], q) ==
      match AnswerOf(Run(mode, ops), op, q)
      case Some(t) => AcceptedAnswers(mode, ops, q) + [t]
      case None => AcceptedAnswers(mode, ops, q)
  {
    assert (ops + [op])[..|ops|] == ops;
  }

  /** One step keeps the future and the accepted answers together. */
  lemma HoldsStep(x: Question, y: Question, answer: Option<string>, accepted: seq<string>)
    requires Holds(x.future, accepted) && Evolves(x, y, answer)
    ensures Holds(y.future, if answer.Some? then accepted + [answer.value] else accepted)
  {}

  lemma {:induction false} AnswersTrimmed(mode: Mode, ops: seq<Op>, q: nat)
    ensures forall t :: t in AcceptedAnswers(mode, ops, q) ==> t != "" && Text.Trimmed(Text.PySpace, t)
  {
    if ops != [] {
      AnswersTrimmed(mode, ops[..|ops| - 1], q);
      var op := ops[|ops| - 1];
      if op.Answer? { Text.TrimEnds(Text.PySpace, op.text); }
    }
  }

  ghost predicate FutureFits(mode: Mode, ops: seq<Op>, q: nat) {
    if q < |Run(mode, ops).questions| then Holds(Run(mode, ops).questions[q].future, AcceptedAnswers(mode, ops, q))
    else AcceptedAnswers(mode, ops, q) == []
  }

  lemma FutureStep(mode: Mode, ops: seq<Op>, op: Op, q: nat)
    requires FutureFits(mode, ops, q)
    ensures FutureFits(mode, ops + [op], q)
  {
    var s := Run(mode, ops);
    RunSnoc(mode, ops, op, q);
    QuestionCount(s, op);
    if q < |s.questions| {
      EveryRunIsClean(mode, ops);
      assert QuestionClean(s, q);
      QuestionStep(s, op, q);
      HoldsStep(s.questions[q], Step(s, op).questions[q], AnswerOf(s, op, q), AcceptedAnswers(mode, ops, q));
    } else {
      NotYetAsked(s, op, q);
    }
  }

  /** A new question's future waits, and none is answered before it is asked. */
  lemma NotYetAsked(s: State, op: Op, q: nat)
    requires q >= |s.questions|
    ensures AnswerOf(s, op, q) == None
    ensures q < |Step(s, op).questions| ==> Step(s, op).questions[q].future == Waiting
  {
    QuestionCount(s, op);
  }

  lemma {:induction false} FutureHolds(mode: Mode, ops: seq<Op>, q: nat)
    ensures FutureFits(mode, ops, q)
  {
    if ops != [] {
      var init, op := ops[..|ops| - 1], ops[|ops| - 1];
      assert ops == init + [op];
      FutureHolds(mode, init, q);
      FutureStep(mode, init, op, q);
    }
  }

  /** `answer` returns true at most once per question, and then the future holds
      exactly that trimmed answer for good. */
  lemma AnsweredOnce(mode: Mode, ops: seq<Op>, q: nat)
    ensures |AcceptedAnswers(mode, ops, q)| <= 1
    ensures FutureFits(mode, ops, q)
    ensures forall t :: t in AcceptedAnswers(mode, ops, q) ==> t != "" && Text.Trimmed(Text.PySpace, t)
  {
    FutureHolds(mode, ops, q);
    AnswersTrimmed(mode, ops, q);
  }

  // ----- what happened to a question -----

  /** The steps of a history that decide a question's fate. */
  datatype Mark =
    | Publishes(route: Route)
    | Cancels
    | TimesOut
    | Unregisters

  /** The branch `ask` takes under a policy. */
  function RouteFor(policy: Option<Policy>): Route {
    match policy
    case None => NoPolicy
    case Some(p) =>
      if p.mode == "preset" then Preset
      else if p.mode == "timeout" && p.hasTimeout then Timeout
      else Refused
  }

  /** The step taken in state s marks question q: it is published while its session
      has a policy for that branch, its awaiting task is cancelled or reached by its
      timer, or its run is unregistered. */
  predicate Marks(m: Mark, s: State, op: Op, q: nat) {
    q < |s.questions| &&
    var x := s.questions[q];
    match m
    case Publishes(route) =>
      op == Publish(q) && x.stage == Publishing && RouteFor(PolicyOf(s, x.session)) == route
    case Cancels => op == Interrupting(q) && x.stage == Awaiting
    case TimesOut => op == Timer(q) && x.stage == Awaiting && x.route == Timeout
    case Unregisters => op == UnregisterRun(x.run)
  }

  ghost predicate MarkedAt(m: Mark, mode: Mode, ops: seq<Op>, q: nat, k: nat) {
    k < |ops| && Marks(m, Run(mode, ops[..k]), ops[k], q)
  }

  /** Some step of the history marked the question. */
  ghost predicate Marked(m: Mark, mode: Mode, ops: seq<Op>, q: nat) {
    exists k: nat :: MarkedAt(m, mode, ops, q, k)
  }

  lemma MarkedSnoc(m: Mark, mode: Mode, ops: seq<Op>, op: Op, q: nat)
    ensures Marked(m, mode, ops + [op], q) <==> Marked(m, mode, ops, q) || Marks(m, Run(mode, ops), op, q)
  {
    var more := ops + [op];
    assert more[..|ops|] == ops;
    if k: nat :| MarkedAt(m, mode, more, q, k) {
      if k < |ops| {
        assert more[..k] == ops[..k];
        assert MarkedAt(m, mode, ops, q, k);
      }
    }
    if k: nat :| MarkedAt(m, mode, ops, q, k) {
      assert more[..k] == ops[..k];
      assert MarkedAt(m, mode, more, q, k);
    }
    if Marks(m, Run(mode, ops), op, q) {
      assert MarkedAt(m, mode, more, q, |ops|);
    }
  }

  /** The branch that this step publishes question q on. */
  function PublishedAs(s: State, op: Op, q: nat): Option<Route> {
    if q < |s.questions| && op == Publish(q) && s.questions[q].stage == Publishing
    then Some(RouteFor(PolicyOf(s, s.questions[q].session)))
    else None
  }

  /** How a step that marks question x in these ways shows in what x becomes. */
  predicate Shows(x: Question, y: Question, published: Option<Route>, cancels: bool, timesOut: bool,
                  unregisters: bool) {
    && (published.Some? ==> x.stage == Publishing && x.route == Unrouted)
    && (timesOut ==> x.route == Timeout)
    && y.route == (if published.Some? then published.value else x.route)
    && y.interrupt == (if cancels then TaskCancelled
                       else if timesOut && x.interrupt == NoInterrupt then TimeoutFired
                       else x.interrupt)
    && (y.future == Cancelled ==> x.future == Cancelled || y.interrupt != NoInterrupt || unregisters)
    && (x.stage.Finished? ==> y.stage == x.stage)
  }

  predicate ShowsMarks(s: State, op: Op, q: nat, x: Question, y: Question) {
    Shows(x, y, PublishedAs(s, op, q),
          Marks(Cancels, s, op, q), Marks(TimesOut, s, op, q), Marks(Unregisters, s, op, q))
  }

  lemma BranchShows(x: Question, policy: Option<Policy>, preset: Option<string>)
    requires TaskOk(x) && x.stage == Publishing
    ensures Shows(x, Branch(x, policy, preset), Some(RouteFor(policy)), false, false, false)
  {}

  lemma InterruptShows(x: Question)
    requires TaskOk(x)
    ensures Shows(x, Interrupted(x), None, x.stage == Awaiting, false, false)
  {}

  lemma TimerShows(x: Question)
    requires TaskOk(x)
    ensures Shows(x, TimerFired(x), None, false, x.stage == Awaiting && x.route == Timeout, false)
  {}

  lemma WakeShows(x: Question)
    requires TaskOk(x)
    ensures Shows(x, Woken(x), None, false, false, false)
  {}

  lemma SameShows(x: Question)
    ensures Shows(x, x, None, false, false, false)
  {}

  lemma PublishMarks(s: State, p: nat, q: nat)
    requires q < |s.questions| && TaskOk(s.questions[q])
    ensures var t := Step(s, Publish(p));
            q < |t.questions| && ShowsMarks(s, Publish(p), q, s.questions[q], t.questions[q])
  {
    PublishAt(s, p, q);
    if p == q && s.questions[q].stage == Publishing {
      BranchShows(s.questions[q], PolicyOf(s, s.questions[q].session), NextPreset(s, s.questions[q].session));
    } else {
      SameShows(s.questions[q]);
    }
  }

  /** What a step of the task or its timer makes of a question. */
  function Moved(op: Op, x: Question): Question {
    if op.Interrupting? then Interrupted(x) else if op.Timer? then TimerFired(x) else if op.Wake? then Woken(x) else x
  }

  lemma TaskIsPut(s: State, op: Op)
    requires (op.Interrupting? || op.Timer? || op.Wake?) && op.question < |s.questions|
    ensures Step(s, op) == Put(s, op.question, Moved(op, s.questions[op.question]))
  {}

  lemma TaskAt(s: State, op: Op, q: nat)
    requires q < |s.questions| && (op.Interrupting? || op.Timer? || op.Wake?)
    ensures |Step(s, op).questions| == |s.questions|
    ensures Step(s, op).questions[q] == if op.question == q then Moved(op, s.questions[q]) else s.questions[q]
  {
    if op.question < |s.questions| {
      TaskIsPut(s, op);
      PutAt(s, op.question, Moved(op, s.questions[op.question]), q);
    }
  }

  lemma MovedShows(op: Op, x: Question)
    requires TaskOk(x) && (op.Interrupting? || op.Timer? || op.Wake?)
    ensures var awaiting := x.stage == Awaiting;
            Shows(x, Moved(op, x), None,
                  op.Interrupting? && awaiting, op.Timer? && awaiting && x.route == Timeout, false)
  {
    if op.Interrupting? { InterruptShows(x); } else if op.Timer? { TimerShows(x); } else { WakeShows(x); }
  }

  lemma TaskMarks(s: State, op: Op, q: nat)
    requires q < |s.questions| && TaskOk(s.questions[q]) && (op.Interrupting? || op.Timer? || op.Wake?)
    ensures q < |Step(s, op).questions| && ShowsMarks(s, op, q, s.questions[q], Step(s, op).questions[q])
  {
    TaskAt(s, op, q);
    if op.question == q { MovedShows(op, s.questions[q]); } else { SameShows(s.questions[q]); }
  }

  lemma UnregisterMarks(s: State, run: RunId, q: nat)
    requires q < |s.questions|
    ensures ShowsMarks(s, UnregisterRun(run), q, s.questions[q], Unregistered(s, run).questions[q])
  {
    var x := s.questions[q];
    assert Unregistered(s, run).questions[q] == CancelIf(x, q in s.pending && x.run == run);
  }

  lemma AnswerMarks(s: State, p: nat, text: string, q: nat)
    requires q < |s.questions|
    ensures var t := Step(s, Answer(p, text));
            q < |t.questions| && ShowsMarks(s, Answer(p, text), q, s.questions[q], t.questions[q])
  {
    if Accepts(s, p, text) { AnswerAt(s, p, text); }
  }

  lemma MarkStep(s: State, op: Op, q: nat)
    requires q < |s.questions| && TaskOk(s.questions[q])
    ensures q < |Step(s, op).questions| && ShowsMarks(s, op, q, s.questions[q], Step(s, op).questions[q])
  {
    if op.Publish? {
      PublishMarks(s, op.question, q);
    } else if op.Interrupting? || op.Timer? || op.Wake? {
      TaskMarks(s, op, q);
    } else if op.UnregisterRun? {
      UnregisterMarks(s, op.run, q);
    } else if op.Answer? {
      AnswerMarks(s, op.question, op.text, q);
    } else if !op.Ask? {
      OtherOpFrame(s, op);
    }
  }

  /** What the marks of a history say about the question as it is now. */
  ghost predicate FitsMarks(x: Question, mode: Mode, ops: seq<Op>, q: nat) {
    && (forall r :: r != Unrouted ==> (x.route == r <==> Marked(Publishes(r), mode, ops, q)))
    && (x.interrupt == TaskCancelled <==> Marked(Cancels, mode, ops, q))
    && (x.interrupt == TimeoutFired <==> Marked(TimesOut, mode, ops, q) && !Marked(Cancels, mode, ops, q))
    && (Marked(TimesOut, mode, ops, q) ==> x.route == Timeout)
    && (x.future == Cancelled ==> x.interrupt != NoInterrupt || Marked(Unregisters, mode, ops, q))
  }

  lemma MarksExtend(mode: Mode, ops: seq<Op>, op: Op, q: nat)
    ensures forall m :: Marked(m, mode, ops + [op], q) <==> Marked(m, mode, ops, q) || Marks(m, Run(mode, ops), op, q)
  {
    forall m ensures Marked(m, mode, ops + [op], q) <==> Marked(m, mode, ops, q) || Marks(m, Run(mode, ops), op, q) {
      MarkedSnoc(m, mode, ops, op, q);
    }
  }

  lemma FitsStep(mode: Mode, ops: seq<Op>, op: Op, q: nat, x: Question, y: Question)
    requires q < |Run(mode, ops).questions| && x == Run(mode, ops).questions[q]
    requires FitsMarks(x, mode, ops, q) && ShowsMarks(Run(mode, ops), op, q, x, y)
    ensures FitsMarks(y, mode, ops + [op], q)
  {
    MarksExtend(mode, ops, op, q);
  }

  /** Every history can be read off the question it left: its branch is that of the
      policy it was published under, and its interrupt says whether its task was
      cancelled, or else reached by its timer. */
  lemma {:induction false} MarksTell(mode: Mode, ops: seq<Op>, q: nat)
    ensures if q < |Run(mode, ops).questions| then FitsMarks(Run(mode, ops).questions[q], mode, ops, q)
            else forall m :: !Marked(m, mode, ops, q)
  {
    if ops != [] {
      var init, op := ops[..|ops| - 1], ops[|ops| - 1];
      assert ops == init + [op];
      var s := Run(mode, init);
      MarksTell(mode, init, q);
      QuestionCount(s, op);
      if q < |s.questions| {
        EveryRunIsClean(mode, init);
        assert QuestionClean(s, q);
        MarkStep(s, op, q);
        FitsStep(mode, init, op, q, s.questions[q], Step(s, op).questions[q]);
      } else {
        MarksExtend(mode, init, op, q);
      }
    }
  }

  /** Published, and on a branch that waits for an answer. */
  ghost predicate Awaited(mode: Mode, ops: seq<Op>, q: nat) {
    Marked(Publishes(NoPolicy), mode, ops, q) || Marked(Publishes(Timeout), mode, ops, q)
  }

  /** What a finished call of `ask` came to, told by its history alone: it returned
      the accepted answer exactly when it was awaited, an answer was accepted, and
      neither a cancellation nor the timer reached its task; the timer decides unless
      the task was cancelled; and published without a policy it never times out. */
  lemma AskReturnsAnswer(mode: Mode, ops: seq<Op>, q: nat)
    requires q < |Run(mode, ops).questions| && Run(mode, ops).questions[q].stage.Finished?
    ensures var outcome := Run(mode, ops).questions[q].stage.outcome; var accepted := AcceptedAnswers(mode, ops, q);
            var cancelled, timedOut := Marked(Cancels, mode, ops, q), Marked(TimesOut, mode, ops, q);
            && (forall t :: outcome == Answered(t) <==>
                  Awaited(mode, ops, q) && accepted == [t] && !cancelled && !timedOut)
            && (outcome == TimedOut <==> Awaited(mode, ops, q) && timedOut && !cancelled)
            && (Awaited(mode, ops, q) ==>
                  (outcome == Aborted <==> cancelled || (accepted == [] && !timedOut))
                  && (accepted == [] && !cancelled && !timedOut ==> Marked(Unregisters, mode, ops, q)))
            && (Marked(Publishes(NoPolicy), mode, ops, q) ==> outcome != TimedOut && !timedOut)
  {
    EveryRunIsClean(mode, ops);
    assert QuestionClean(Run(mode, ops), q);
    AnsweredOnce(mode, ops, q);
    MarksTell(mode, ops, q);
  }

  // ----- how long a question is pending -----

  /** Putting back a question takes it off the table only through `finally`. */
  lemma PutPending(s: State, p: nat, y: Question, q: nat)
    requires p < |s.questions|
    ensures q in Put(s, p, y).pending <==> q in s.pending && !(q == p && Leaves(s.questions[p], y))
  {}

  lemma PublishLeaves(s: State, p: nat, q: nat)
    requires q < |s.questions|
    ensures q < |Step(s, Publish(p)).questions|
    ensures q in Step(s, Publish(p)).pending <==>
            q in s.pending && !Leaves(s.questions[q], Step(s, Publish(p)).questions[q])
  {
    if p < |s.questions| && s.questions[p].stage == Publishing {
      PublishIsPut(s, p);
    }
  }

  lemma TaskLeaves(s: State, op: Op, q: nat)
    requires q < |s.questions| && (op.Interrupting? || op.Timer? || op.Wake?)
    ensures q < |Step(s, op).questions|
    ensures q in Step(s, op).pending <==> q in s.pending && !Leaves(s.questions[q], Step(s, op).questions[q])
  {
    TaskAt(s, op, q);
    if op.question < |s.questions| {
      PutPending(s, op.question, Moved(op, s.questions[op.question]), q);
    }
  }

  lemma AnswerLeaves(s: State, p: nat, text: string, q: nat)
    requires q < |s.questions|
    ensures q < |Step(s, Answer(p, text)).questions|
    ensures q in Step(s, Answer(p, text)).pending <==>
            q in s.pending && !Leaves(s.questions[q], Step(s, Answer(p, text)).questions[q])
  {
    if Accepts(s, p, text) {
      PutPending(s, p, s.questions[p].(future := Resolved(Strip(text))), q);
    }
  }

  /** A question leaves the table with its run or through the `finally` clause. */
  lemma PendingAfter(s: State, op: Op, q: nat)
    requires q < |s.questions|
    ensures q < |Step(s, op).questions|
    ensures q in Step(s, op).pending <==>
            q in s.pending && !Marks(Unregisters, s, op, q) && !Leaves(s.questions[q], Step(s, op).questions[q])
  {
    if op.UnregisterRun? {
      UnregisterLeavesNone(s, op.run, q);
    } else if op.Publish? {
      PublishLeaves(s, op.question, q);
    } else if op.Interrupting? || op.Timer? || op.Wake? {
      TaskLeaves(s, op, q);
    } else if op.Answer? {
      AnswerLeaves(s, op.question, op.text, q);
    } else if !op.Ask? {
      OtherOpFrame(s, op);
    }
  }

  lemma UnregisterLeavesNone(s: State, run: RunId, q: nat)
    requires q < |s.questions|
    ensures !Leaves(s.questions[q], Unregistered(s, run).questions[q])
  {}

  /** A question is pending from `ask` until it ends past its `try` or its run is
      unregistered; one whose publication failed is never past its `try`. */
  lemma {:induction false} PendingLifetime(mode: Mode, ops: seq<Op>, q: nat)
    ensures var s := Run(mode, ops);
            q in s.pending <==>
              && q < |s.questions|
              && (!s.questions[q].stage.Finished? || s.questions[q].route == Unrouted)
              && !Marked(Unregisters, mode, ops, q)
  {
    if ops != [] {
      var init, op := ops[..|ops| - 1], ops[|ops| - 1];
      assert ops == init + [op];
      var s := Run(mode, init);
      PendingLifetime(mode, init, q);
      QuestionCount(s, op);
      MarkedSnoc(Unregisters, mode, init, op, q);
      EveryRunIsClean(mode, init);
      if q < |s.questions| {
        assert QuestionClean(s, q);
        PendingAfter(s, op, q);
        MarkStep(s, op, q);
      } else {
        MarksTell(mode, init, q);
      }
    }
  }

  /** `answer` returns true exactly for a text that is not blank and a question asked,
      not ended past its `try`, not answered before, and not reached by a
      cancellation, its timer or the end of its run. */
  lemma AcceptsExactly(mode: Mode, ops: seq<Op>, q: nat, text: string)
    ensures var s := Run(mode, ops);
            Accepts(s, q, text) <==>
              && Strip(text) != "" && q < |s.questions|
              && (!s.questions[q].stage.Finished? || s.questions[q].route == Unrouted)
              && AcceptedAnswers(mode, ops, q) == []
              && !Marked(Cancels, mode, ops, q) && !Marked(TimesOut, mode, ops, q) && !Marked(Unregisters, mode, ops, q)
  {
    PendingLifetime(mode, ops, q);
    AnsweredOnce(mode, ops, q);
    MarksTell(mode, ops, q);
    EveryRunIsClean(mode, ops);
    assert QuestionClean(Run(mode, ops), q);
  }

  lemma FailPublishing(s: State, run: RunId, session: SessionId)
    ensures var n := |s.questions|; var t := Step(Asked(s, run, session), Interrupting(n));
            && n in t.pending && n < |t.questions|
            && t.questions[n] == Question(run, session, Waiting, Unrouted, Finished(Aborted), NoInterrupt)
  {
    var n, asked := |s.questions|, Asked(s, run, session);
    TaskAt(asked, Interrupting(n), n);
    PutPending(asked, n, Interrupted(asked.questions[n]), n);
  }

  /** A question whose publication fails stays pending although nobody awaits it, and
      `answer` still accepts a text for it; this can happen after any history. */
  lemma FailedPublication(mode: Mode, ops: seq<Op>, run: RunId, session: SessionId, text: string)
    requires Strip(text) != ""
    ensures var n := |Run(mode, ops).questions|; var s := Run(mode, ops + [Ask(run, session)] + [Interrupting(n)]);
            && n in s.pending && n < |s.questions| && s.questions[n].stage == Finished(Aborted)
            && Accepts(s, n, text)
  {
    var n, asked := |Run(mode, ops).questions|, ops + [Ask(run, session)];
    RunSnoc(mode, ops, Ask(run, session), n);
    RunSnoc(mode, asked, Interrupting(n), n);
    FailPublishing(Run(mode, ops), run, session);
  }

  /** An accepted answer can still be lost: the timer may fire after `answer` has
      returned true and before the waiting task runs again. */
  lemma AcceptedThenTimedOut(mode: Mode, ops: seq<Op>, q: nat, text: string)
    requires var s := Run(mode, ops);
             Accepts(s, q, text) && s.questions[q].stage == Awaiting && s.questions[q].route == Timeout
    ensures var late := ops + [Answer(q, text)] + [Timer(q)] + [Wake(q)];
            && AcceptedAnswers(mode, late, q) == [Strip(text)]
            && q < |Run(mode, late).questions| && Run(mode, late).questions[q].stage == Finished(TimedOut)
  {
    var s := Run(mode, ops);
    EveryRunIsClean(mode, ops);
    assert QuestionClean(s, q);
    AnsweredOnce(mode, ops, q);
    LateTimer(s, q, text);
    var o1 := ops + [Answer(q, text)];
    RunSnoc(mode, ops, Answer(q, text), q);
    RunSnoc(mode, o1, Timer(q), q);
    RunSnoc(mode, o1 + [Timer(q)], Wake(q), q);
  }

  /** What the three steps make of question q. */
  lemma StepsAt(s: State, q: nat)
    requires q < |s.questions|
    ensures |Step(s, Timer(q)).questions| == |s.questions|
        && Step(s, Timer(q)).questions[q] == TimerFired(s.questions[q])
    ensures |Step(s, Wake(q)).questions| == |s.questions| && Step(s, Wake(q)).questions[q] == Woken(s.questions[q])
  {}

  lemma AnswerAt(s: State, q: nat, text: string)
    requires Accepts(s, q, text)
    ensures |Step(s, Answer(q, text)).questions| == |s.questions|
    ensures Step(s, Answer(q, text)).questions[q] == s.questions[q].(future := Resolved(Strip(text)))
  {}

  lemma LateTimer(s: State, q: nat, text: string)
    requires Accepts(s, q, text) && s.questions[q].stage == Awaiting && s.questions[q].route == Timeout
    requires s.questions[q].interrupt == NoInterrupt
    ensures var t := Step(Step(Step(s, Answer(q, text)), Timer(q)), Wake(q));
            q < |t.questions| && t.questions[q].stage == Finished(TimedOut)
  {
    AnswerAt(s, q, text);
    var s1 := Step(s, Answer(q, text));
    StepsAt(s1, q);
    StepsAt(Step(s1, Timer(q)), q);
  }

  /** Such questions exist: one asked under a timeout policy and just published. */
  lemma TimedQuestion(mode: Mode, text: string)
    requires Strip(text) != ""
    ensures var s := Run(mode, [] + [SetPolicy("s", Policy("timeout", true, []))] + [Ask("r", "s")] + [Publish(0)]);
            Accepts(s, 0, text) && s.questions[0].stage == Awaiting && s.questions[0].route == Timeout
  {
    var timed := Policy("timeout", true, []);
    var o1 := [] + [SetPolicy("s", timed)];
    RunSnoc(mode, [], SetPolicy("s", timed), 0);
    RunSnoc(mode, o1, Ask("r", "s"), 0);
    RunSnoc(mode, o1 + [Ask("r", "s")], Publish(0), 0);
    var s1 := Run(mode, o1);
    assert PolicyOf(s1, "s") == Some(timed) && s1.questions == [];
    AskThenPublish(s1, "r", "s", timed);
  }

  lemma AskThenPublish(s: State, run: RunId, session: SessionId, timed: Policy)
    requires PolicyOf(s, session) == Some(timed) && timed.mode == "timeout" && timed.hasTimeout
    ensures var n := |s.questions|; var t := Step(Asked(s, run, session), Publish(n));
            && n < |t.questions| && n in t.pending
            && t.questions[n] == Question(run, session, Waiting, Timeout, Awaiting, NoInterrupt)
  {
    var n, t := |s.questions|, Asked(s, run, session);
    assert t.questions[n] == Question(run, session, Waiting, Unrouted, Publishing, NoInterrupt);
    assert Branch(t.questions[n], Some(timed), NextPreset(t, session)) == Await(t.questions[n], Timeout);
  }

  // ----- preset answers -----

  /** The answers of the policy the session was last given, if it still has one. */
  function PolicyAnswers(ops: seq<Op>, session: SessionId): seq<string> {
    if ops == [] then [] else
      var op := ops[|ops| - 1];
      if op.SetPolicy? && op.session == session then op.policy.answers
      else if op == ClearPolicy(session) then []
      else PolicyAnswers(ops[..|ops| - 1], session)
  }

  /** The preset answers returned to the session's questions under that policy. */
  function PresetReturned(mode: Mode, ops: seq<Op>, session: SessionId): seq<string> {
    if ops == [] then [] else
      var init, op := ops[..|ops| - 1], ops[|ops| - 1];
      var before := PresetReturned(mode, init, session);
      if (op.SetPolicy? && op.session == session) || op == ClearPolicy(session) then []
      else if op.Publish? then before + PresetOf(Run(mode, init), op.question, session)
      else before
  }

  /** The preset answer that publishing question q returns to the session. */
  function PresetOf(s: State, q: nat, session: SessionId): seq<string> {
    if q < |s.questions| && s.questions[q].stage == Publishing && s.questions[q].session == session
    then
      var y := Published(s, q).questions[q];
      if UsesPreset(y) then [y.stage.outcome.text] else []
    else []
  }

  /** A preset session is answered with the policy's answers, in their order, each
      once, until they are used up. */
  lemma {:induction false} PresetsInOrder(mode: Mode, ops: seq<Op>, session: SessionId)
    ensures PolicyAnswers(ops, session) == PresetReturned(mode, ops, session) + Presets(Run(mode, ops), session)
  {
    if ops != [] {
      var init, op := ops[..|ops| - 1], ops[|ops| - 1];
      PresetsInOrder(mode, init, session);
      var s := Run(mode, init);
      var before := PresetReturned(mode, init, session);
      if op.Publish? {
        PresetsPublished(s, op.question, session);
        Reassociate(before, PresetOf(s, op.question, session), Presets(Step(s, op), session));
      } else if !(op.SetPolicy? && op.session == session) && op != ClearPolicy(session) {
        PresetsKept(s, op, session);
      }
    }
  }

  lemma PresetsPublished(s: State, q: nat, session: SessionId)
    ensures Presets(s, session) == PresetOf(s, q, session) + Presets(Step(s, Publish(q)), session)
  {
    if q < |s.questions| && s.questions[q].stage == Publishing {
      PublishStep(s, q, session);
    }
  }

  lemma PresetsKept(s: State, op: Op, session: SessionId)
    requires !(op.SetPolicy? && op.session == session) && op != ClearPolicy(session)
    requires !op.Publish?
    ensures Presets(Step(s, op), session) == Presets(s, session)
  {
    if QuestionOp(op) {
      QuestionOpFrame(s, op);
    }
  }

  /** Publishing uses one preset answer up exactly when it returns one. */
  lemma PublishStep(s: State, q: nat, session: SessionId)
    requires q < |s.questions| && s.questions[q].stage == Publishing
    ensures var y := Published(s, q).questions[q];
            if s.questions[q].session == session && UsesPreset(y)
            then Presets(s, session) != [] && y.stage.outcome.text == Presets(s, session)[0]
                 && Presets(Published(s, q), session) == Presets(s, session)[1..]
            else Presets(Published(s, q), session) == Presets(s, session)
  {
    var x := s.questions[q];
    BranchPreset(x, PolicyOf(s, x.session), NextPreset(s, x.session));
  }

  lemma BranchPreset(x: Question, policy: Option<Policy>, preset: Option<string>)
    ensures UsesPreset(Branch(x, policy, preset)) ==> preset == Some(Branch(x, policy, preset).stage.outcome.text)
    ensures policy.Some? && policy.value.mode == "preset" ==>
              Branch(x, policy, preset).stage ==
                  Finished(match preset case Some(a) => FromPreset(a) case None => Exhausted)
  {}

  /** A preset session's question is refused exactly when every answer has been
      returned. */
  lemma PresetExhausted(mode: Mode, ops: seq<Op>, q: nat)
    requires var s := Run(mode, ops);
             q < |s.questions| && s.questions[q].stage == Publishing
             && s.questions[q].session in s.policies && s.policies[s.questions[q].session].mode == "preset"
    ensures var s := Run(mode, ops); var session := s.questions[q].session;
            var y := Published(s, q).questions[q];
            var n := |PresetReturned(mode, ops, session)|;
            && n <= |PolicyAnswers(ops, session)|
            && y.stage == Finished(if n < |PolicyAnswers(ops, session)|
                                   then FromPreset(PolicyAnswers(ops, session)[n]) else Exhausted)
  {
    var s := Run(mode, ops);
    var x := s.questions[q];
    PresetsInOrder(mode, ops, x.session);
    BranchPreset(x, PolicyOf(s, x.session), NextPreset(s, x.session));
  }
}
