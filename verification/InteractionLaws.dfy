/** What each call of the interaction manager brings about, told by the history of
    calls alone. */
module InteractionLaws {
  import opened Sequences
  import opened Interaction
  import opened InteractionRuns
  import opened InteractionQuestions
  import Text

  // ----- runs -----

  /** The run was registered at k and not unregistered since. */
  ghost predicate RegisteredAt(ops: seq<Op>, run: RunId, k: nat) {
    k < |ops| && ops[k] == RegisterRun(run) && forall m :: k < m < |ops| ==> ops[m] != UnregisterRun(run)
  }

  ghost predicate Registered(ops: seq<Op>, run: RunId) {
    exists k: nat :: RegisteredAt(ops, run, k)
  }

  lemma RegisteredSnoc(ops: seq<Op>, op: Op, run: RunId)
    ensures Registered(ops + [op], run) <==>
            op == RegisterRun(run) || (Registered(ops, run) && op != UnregisterRun(run))
  {
    var more := ops + [op];
    if op == RegisterRun(run) {
      assert RegisteredAt(more, run, |ops|);
    }
    if k: nat :| RegisteredAt(ops, run, k) {
      if op != UnregisterRun(run) { assert RegisteredAt(more, run, k); }
    }
    if k: nat :| RegisteredAt(more, run, k) {
      if k < |ops| {
        assert more[|ops|] == op;
        forall m | k < m < |ops| ensures ops[m] != UnregisterRun(run) { assert more[m] == ops[m]; }
        assert RegisteredAt(ops, run, k);
      }
    }
  }

  lemma ActiveStep(s: State, op: Op, run: RunId)
    ensures run in Step(s, op).active <==> op == RegisterRun(run) || (run in s.active && op != UnregisterRun(run))
  {
    if QuestionOp(op) {
      QuestionOpFrame(s, op);
    } else if !op.RegisterRun? && !op.UnregisterRun? {
      assert Step(s, op).active == s.active;
    }
  }

  /** A run is active exactly from `register_run` until `unregister_run`. */
  lemma {:induction false} ActiveExactly(mode: Mode, ops: seq<Op>, run: RunId)
    ensures run in Run(mode, ops).active <==> Registered(ops, run)
  {
    if ops != [] {
      var init, op := ops[..|ops| - 1], ops[|ops| - 1];
      assert ops == init + [op];
      ActiveExactly(mode, init, run);
      ActiveStep(Run(mode, init), op, run);
      RegisteredSnoc(init, op, run);
    }
  }

  // ----- steering -----

  /** A list or record with something in it, or a text that is not blank. */
  ghost predicate HasContent(content: Content) {
    match content
    case Words(text) => exists k :: 0 <= k < |text| && !Text.PySpace(text[k])
    case Blocks(blocks) => |blocks| > 0
    case Fields(fields) => |fields| > 0
  }

  /** The content as it is queued: a text without the blanks at its ends. */
  ghost predicate QueuedAs(content: Content, queued: Content) {
    match content
    case Words(text) =>
      && queued.Words? && Text.Trimmed(Text.PySpace, queued.text)
      && exists i: nat, j: nat :: Text.BlankOutside(Text.PySpace, text, i, j) && queued.text == text[i..j]
    case _ => queued == content
  }

  lemma ContentMeaning(content: Content)
    ensures Empty(Normalised(content)) <==> !HasContent(content)
    ensures QueuedAs(content, Normalised(content))
  {
    match content
    case Words(text) =>
      Text.TrimBlank(Text.PySpace, text);
      Text.TrimMeaning(Text.PySpace, text);
    case _ =>
  }

  /** `steer` is accepted exactly when the run is registered and there is content, and
      then it puts the trimmed content behind everything queued for the run. */
  lemma SteerDecides(mode: Mode, ops: seq<Op>, run: RunId, content: Content)
    ensures var s, t := Run(mode, ops), Run(mode, ops + [Steer(run, content)]);
            var accepted := Registered(ops, run) && HasContent(content);
            && (Admits(s, run, content) <==> accepted)
            && if accepted then exists c :: QueuedAs(content, c) && Queue(t, run) == Queue(s, run) + [c]
               else t == s
  {
    var s := Run(mode, ops);
    RunSnoc(mode, ops, Steer(run, content), 0);
    ActiveExactly(mode, ops, run);
    ContentMeaning(content);
    QueueStep(s, Steer(run, content), run);
  }

  /** One drain hands out the first message of a queue, or in "all" mode the whole
      queue, and leaves the rest. */
  lemma DrainHandsOut(mode: Mode, ops: seq<Op>, run: RunId)
    ensures var s, t := Run(mode, ops), Run(mode, ops + [Drain(run)]);
            var queue, out := Queue(s, run), DrainedMessages(s, run);
            && queue == out + Queue(t, run)
            && |out| == if ModeSet(mode, ops) == All || queue == [] then |queue| else 1
  {
    var s := Run(mode, ops);
    RunSnoc(mode, ops, Drain(run), 0);
    QueueStep(s, Drain(run), run);
    DrainSplitsQueue(s, run);
    ModeFollows(mode, ops);
  }

  /** A follow-up is accepted exactly when the run is registered and it is a custom
      message, and is put behind those queued. */
  lemma FollowUpDecides(mode: Mode, ops: seq<Op>, run: RunId, message: Message)
    ensures var s, t := Run(mode, ops), Run(mode, ops + [QueueFollowUp(run, message)]);
            var accepted := Registered(ops, run) && "role" in message && message["role"] == "custom";
            && (AdmitsFollowUp(s, run, message) <==> accepted)
            && if accepted then FollowUpQueue(t, run) == FollowUpQueue(s, run) + [message] else t == s
  {
    var s := Run(mode, ops);
    RunSnoc(mode, ops, QueueFollowUp(run, message), 0);
    ActiveExactly(mode, ops, run);
    FollowUpStep(s, QueueFollowUp(run, message), run);
  }

  // ----- modes, policies and bindings -----

  /** The mode last set. */
  function ModeSet(mode: Mode, ops: seq<Op>): Mode {
    if ops == [] then mode
    else if ops[|ops| - 1].SetMode? then ops[|ops| - 1].mode
    else ModeSet(mode, ops[..|ops| - 1])
  }

  lemma {:induction false} ModeFollows(mode: Mode, ops: seq<Op>)
    ensures Run(mode, ops).mode == ModeSet(mode, ops)
  {
    if ops != [] {
      var init, op := ops[..|ops| - 1], ops[|ops| - 1];
      ModeFollows(mode, init);
      if QuestionOp(op) { QuestionOpFrame(Run(mode, init), op); }
    }
  }

  /** The policy the session was last given, if it was not cleared since. */
  function PolicySet(ops: seq<Op>, session: SessionId): Option<Policy> {
    if ops == [] then None else
      var op := ops[|ops| - 1];
      if op.SetPolicy? && op.session == session then Some(op.policy)
      else if op == ClearPolicy(session) then None
      else PolicySet(ops[..|ops| - 1], session)
  }

  lemma PolicyStep(s: State, op: Op, session: SessionId)
    ensures PolicyOf(Step(s, op), session) ==
      if op.SetPolicy? && op.session == session then Some(op.policy)
      else if op == ClearPolicy(session) then None
      else PolicyOf(s, session)
  {
    if QuestionOp(op) {
      QuestionOpFrame(s, op);
    } else if !op.SetPolicy? && !op.ClearPolicy? {
      assert Step(s, op).policies == s.policies;
    }
  }

  lemma {:induction false} PolicyFollows(mode: Mode, ops: seq<Op>, session: SessionId)
    ensures PolicyOf(Run(mode, ops), session) == PolicySet(ops, session)
  {
    if ops != [] {
      PolicyFollows(mode, ops[..|ops| - 1], session);
      PolicyStep(Run(mode, ops[..|ops| - 1]), ops[|ops| - 1], session);
    }
  }

  function Lookup(bindings: map<RunId, nat>, run: RunId): Option<nat> {
    if run in bindings then Some(bindings[run]) else None
  }

  /** The follow-up source last bound to the run and not released since. */
  function SourceBound(ops: seq<Op>, run: RunId): Option<nat> {
    if ops == [] then None else
      var op := ops[|ops| - 1];
      if op.BindFollowUp? && op.run == run then Some(op.source)
      else if op == UnbindFollowUp(run) || op == UnregisterRun(run) then None
      else SourceBound(ops[..|ops| - 1], run)
  }

  function SenderBound(ops: seq<Op>, run: RunId): Option<nat> {
    if ops == [] then None else
      var op := ops[|ops| - 1];
      if op.BindSender? && op.run == run then Some(op.sender)
      else if op == UnbindFollowUp(run) || op == UnregisterRun(run) then None
      else SenderBound(ops[..|ops| - 1], run)
  }

  lemma SourceStep(s: State, op: Op, run: RunId)
    ensures Lookup(Step(s, op).sources, run) ==
      if op.BindFollowUp? && op.run == run then Some(op.source)
      else if op == UnbindFollowUp(run) || op == UnregisterRun(run) then None
      else Lookup(s.sources, run)
  {
    if QuestionOp(op) {
      QuestionOpFrame(s, op);
    } else if !op.BindFollowUp? && !op.UnbindFollowUp? && !op.UnregisterRun? {
      assert Step(s, op).sources == s.sources;
    }
  }

  lemma SenderStep(s: State, op: Op, run: RunId)
    ensures Lookup(Step(s, op).senders, run) ==
      if op.BindSender? && op.run == run then Some(op.sender)
      else if op == UnbindFollowUp(run) || op == UnregisterRun(run) then None
      else Lookup(s.senders, run)
  {
    if QuestionOp(op) {
      QuestionOpFrame(s, op);
    } else if !op.UnbindFollowUp? && !op.UnregisterRun? && !op.BindSender? {
      assert Step(s, op).senders == s.senders;
    }
  }

  lemma {:induction false} BindingsFollow(mode: Mode, ops: seq<Op>, run: RunId)
    ensures Lookup(Run(mode, ops).sources, run) == SourceBound(ops, run)
    ensures Lookup(Run(mode, ops).senders, run) == SenderBound(ops, run)
  {
    if ops != [] {
      BindingsFollow(mode, ops[..|ops| - 1], run);
      SourceStep(Run(mode, ops[..|ops| - 1]), ops[|ops| - 1], run);
      SenderStep(Run(mode, ops[..|ops| - 1]), ops[|ops| - 1], run);
    }
  }

  // ----- questions -----

  /** Run and session of each call of `ask`, in order. */
  function Asks(ops: seq<Op>): seq<(RunId, SessionId)> {
    if ops == [] then [] else
      var op, before := ops[|ops| - 1], Asks(ops[..|ops| - 1]);
      if op.Ask? then before + [(op.run, op.session)] else before
  }

  ghost predicate OwnedAs(s: State, asks: seq<(RunId, SessionId)>) {
    && |s.questions| == |asks|
    && forall q :: 0 <= q < |asks| ==> s.questions[q].run == asks[q].0 && s.questions[q].session == asks[q].1
  }

  /** The q-th question belongs to the run and session of the q-th call of `ask`. */
  lemma {:induction false} QuestionsAreAsks(mode: Mode, ops: seq<Op>)
    ensures OwnedAs(Run(mode, ops), Asks(ops))
  {
    if ops != [] {
      var init, op := ops[..|ops| - 1], ops[|ops| - 1];
      var s := Run(mode, init);
      QuestionsAreAsks(mode, init);
      EveryRunIsClean(mode, init);
      QuestionCount(s, op);
      forall q: nat | q < |s.questions|
        ensures q < |Step(s, op).questions|
        ensures Step(s, op).questions[q].run == s.questions[q].run
        ensures Step(s, op).questions[q].session == s.questions[q].session
      {
        assert QuestionClean(s, q);
        QuestionStep(s, op, q);
      }
    }
  }

  /** Where a question stands whose branch waits for an answer: it has its answer if
      one was accepted, it is aborted if its run was unregistered, else it waits. */
  function WaitingStage(accepted: seq<string>, unregistered: bool): Stage {
    if accepted != [] then Finished(Answered(accepted[0])) else if unregistered then Finished(Aborted) else Awaiting
  }

  lemma PublishingFuture(mode: Mode, ops: seq<Op>, q: nat)
    requires q < |Run(mode, ops).questions| && Run(mode, ops).questions[q].stage == Publishing
    ensures Run(mode, ops).questions[q].future ==
      if AcceptedAnswers(mode, ops, q) != [] then Resolved(AcceptedAnswers(mode, ops, q)[0])
      else if Marked(Unregisters, mode, ops, q) then Cancelled else Waiting
  {
    EveryRunIsClean(mode, ops);
    assert QuestionClean(Run(mode, ops), q);
    AnsweredOnce(mode, ops, q);
    MarksTell(mode, ops, q);
    PendingLifetime(mode, ops, q);
  }

  /** What publishing a question leads to, by the policy its session was last given:
      no policy and "timeout" with a timeout wait; "preset" takes the next unused
      answer or is refused; everything else is refused. */
  lemma PublishDecides(mode: Mode, ops: seq<Op>, q: nat)
    requires q < |Run(mode, ops).questions| && Run(mode, ops).questions[q].stage == Publishing
    ensures q < |Asks(ops)| && q < |Run(mode, ops + [Publish(q)]).questions|
    ensures var y := Run(mode, ops + [Publish(q)]).questions[q];
            var session := Asks(ops)[q].1;
            var waiting := WaitingStage(AcceptedAnswers(mode, ops, q), Marked(Unregisters, mode, ops, q));
            match PolicySet(ops, session)
            case None => y.stage == waiting
            case Some(policy) =>
              if policy.mode == "preset" then
                var used, all := |PresetReturned(mode, ops, session)|, policy.answers;
                used <= |all| && y.stage == Finished(if used < |all| then FromPreset(all[used]) else Exhausted)
              else if policy.mode == "timeout" && policy.hasTimeout then y.stage == waiting
              else y.stage == Finished(InputRequired)
  {
    var s := Run(mode, ops);
    var session := s.questions[q].session;
    QuestionsAreAsks(mode, ops);
    RunSnoc(mode, ops, Publish(q), q);
    PublishAt(s, q, q);
    PolicyFollows(mode, ops, session);
    PublishingFuture(mode, ops, q);
    if PolicySet(ops, session).Some? && PolicySet(ops, session).value.mode == "preset" {
      AnswersOfPolicy(ops, session);
      PresetExhausted(mode, ops, q);
    }
  }

  lemma {:induction false} AnswersOfPolicy(ops: seq<Op>, session: SessionId)
    ensures PolicyAnswers(ops, session) ==
            match PolicySet(ops, session) case None => [] case Some(policy) => policy.answers
  {
    if ops != [] { AnswersOfPolicy(ops[..|ops| - 1], session); }
  }

  lemma WokenAt(mode: Mode, ops: seq<Op>, q: nat)
    requires q < |Run(mode, ops).questions|
    ensures q < |Run(mode, ops + [Wake(q)]).questions|
    ensures Run(mode, ops + [Wake(q)]).questions[q] == Woken(Run(mode, ops).questions[q])
  {
    RunSnoc(mode, ops, Wake(q), q);
    StepsAt(Run(mode, ops), q);
  }

  /** A suspended `ask` resumes exactly when an answer was accepted, its task was
      cancelled, its timer fired or its run was unregistered. */
  lemma WakeResumes(mode: Mode, ops: seq<Op>, q: nat)
    requires q < |Run(mode, ops).questions| && Run(mode, ops).questions[q].stage == Awaiting
    ensures q < |Run(mode, ops + [Wake(q)]).questions|
    ensures Run(mode, ops + [Wake(q)]).questions[q].stage.Finished? <==>
              || AcceptedAnswers(mode, ops, q) != []
              || Marked(Cancels, mode, ops, q) || Marked(TimesOut, mode, ops, q) || Marked(Unregisters, mode, ops, q)
  {
    WokenAt(mode, ops, q);
    AnsweredOnce(mode, ops, q);
    MarksTell(mode, ops, q);
    PendingLifetime(mode, ops, q);
    EveryRunIsClean(mode, ops);
    assert QuestionClean(Run(mode, ops), q);
  }

  lemma AcceptedStays(mode: Mode, ops: seq<Op>, q: nat)
    ensures AcceptedAnswers(mode, ops + [Wake(q)], q) == AcceptedAnswers(mode, ops, q)
    ensures forall m: Mark :: !m.Publishes? ==> (Marked(m, mode, ops + [Wake(q)], q) <==> Marked(m, mode, ops, q))
    ensures forall m: Mark :: Marked(m, mode, ops, q) ==> Marked(m, mode, ops + [Wake(q)], q)
  {
    RunSnoc(mode, ops, Wake(q), q);
    MarksExtend(mode, ops, Wake(q), q);
  }

  /** The answer comes back: a question published to wait, answered, and neither
      cancelled nor timed out has returned that answer once its task has had a turn. */
  lemma AnswerComesBack(mode: Mode, ops: seq<Op>, q: nat, text: string)
    requires Awaited(mode, ops, q) && AcceptedAnswers(mode, ops, q) == [text]
    requires !Marked(Cancels, mode, ops, q) && !Marked(TimesOut, mode, ops, q)
    ensures var t := Run(mode, ops + [Wake(q)]);
            q < |t.questions| && t.questions[q].stage == Finished(Answered(text))
  {
    MarksTell(mode, ops, q);
    EveryRunIsClean(mode, ops);
    assert QuestionClean(Run(mode, ops), q);
    WokenAt(mode, ops, q);
    if Run(mode, ops).questions[q].stage == Awaiting {
      WakeResumes(mode, ops, q);
    } else {
      SettledOnce(mode, ops, [Wake(q)], q);
    }
    AcceptedStays(mode, ops, q);
    AskReturnsAnswer(mode, ops + [Wake(q)], q);
  }
}
