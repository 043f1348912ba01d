/** What holds over every history of the interaction manager. */
module InteractionRuns {
  import opened Sequences
  import opened Interaction

  // ----- steps of questions -----

  predicate QuestionOp(op: Op) {
    op.Ask? || op.Publish? || op.Interrupting? || op.Timer? || op.Wake? || op.Answer?
  }

  /** t is s but for its questions, the pending ones and the preset answers. */
  predicate OnlyQuestions(s: State, t: State) {
    t == s.(questions := t.questions, pending := t.pending, presets := t.presets)
  }

  /** The steps of `ask` and `answer` leave queues, runs and policies alone, and
      only publishing uses preset answers. */
  lemma QuestionOpFrame(s: State, op: Op)
    requires QuestionOp(op)
    ensures OnlyQuestions(s, Step(s, op))
    ensures !op.Publish? ==> Step(s, op).presets == s.presets
    ensures !op.Ask? ==> |Step(s, op).questions| == |s.questions| && Step(s, op).pending <= s.pending
  {
    match op
    case Ask(run, session) => assert OnlyQuestions(s, Asked(s, run, session));
    case Publish(q) => if q < |s.questions| { PublishFrame(s, q); }
    case Interrupting(q) => if q < |s.questions| { PutFrame(s, q, Interrupted(s.questions[q])); }
    case Timer(q) => if q < |s.questions| { PutFrame(s, q, TimerFired(s.questions[q])); }
    case Wake(q) => if q < |s.questions| { PutFrame(s, q, Woken(s.questions[q])); }
    case Answer(q, text) => if q < |s.questions| { PutFrame(s, q, s.questions[q].(future := Resolved(Strip(text)))); }
  }

  lemma PutFrame(s: State, q: nat, y: Question)
    requires q < |s.questions|
    ensures OnlyQuestions(s, Put(s, q, y)) && Put(s, q, y).presets == s.presets
    ensures |Put(s, q, y).questions| == |s.questions| && Put(s, q, y).pending <= s.pending
  {}

  lemma PublishFrame(s: State, q: nat)
    requires q < |s.questions|
    ensures OnlyQuestions(s, Published(s, q))
    ensures |Published(s, q).questions| == |s.questions| && Published(s, q).pending <= s.pending
  {
    var session := s.questions[q].session;
    PutFrame(s, q, Branch(s.questions[q], PolicyOf(s, session), NextPreset(s, session)));
  }

  /** Steps that touch no question. */
  lemma OtherOpFrame(s: State, op: Op)
    requires !QuestionOp(op) && !op.UnregisterRun?
    ensures Step(s, op).questions == s.questions && Step(s, op).pending == s.pending
  {}

  /** The outcome of a finished question, by the branch it took. */
  predicate EndedWell(x: Question)
    requires x.stage.Finished?
  {
    match x.route
    case Unrouted => x.stage.outcome == Aborted && x.interrupt == NoInterrupt
    case NoPolicy => x.future != Waiting && x.stage.outcome == AwaitedOutcome(x)
    case Timeout => x.future != Waiting && x.stage.outcome == AwaitedOutcome(x)
    case Preset => x.stage.outcome.FromPreset? || x.stage.outcome == Exhausted
    case Refused => x.stage.outcome == InputRequired
  }

  /** What is always true of one call of `ask`. */
  predicate TaskOk(x: Question) {
    && (x.stage == Publishing ==> x.route == Unrouted && x.interrupt == NoInterrupt)
    && (x.stage == Awaiting ==> x.route == NoPolicy || x.route == Timeout)
    && (x.interrupt != NoInterrupt ==> x.future != Waiting && x.route != Unrouted)
    && (x.interrupt == TimeoutFired ==> x.route == Timeout)
    && (x.stage.Finished? ==> EndedWell(x))
  }

  /** A pending question is unfinished or its publication failed; an unfinished one
      off the table has a future that no longer waits.  How long a question stays
      pending depends on the history: see InteractionQuestions. */
  predicate QuestionOk(x: Question, pending: bool) {
    && TaskOk(x)
    && (pending && x.stage.Finished? ==> x.route == Unrouted)
    && (!pending && !x.stage.Finished? ==> x.future != Waiting)
  }

  ghost predicate QuestionClean(s: State, q: nat) {
    q < |s.questions| ==> QuestionOk(s.questions[q], q in s.pending)
  }

  /** x may become y in one step; answer is the text accepted for it, if any. */
  predicate Evolves(x: Question, y: Question, answer: Option<string>) {
    && y.run == x.run && y.session == x.session
    && (x.future != Waiting ==> y.future == x.future)
    && (x.stage.Finished? ==> y.stage == x.stage)
    && match answer
       case Some(t) => x.future == Waiting && y.future == Resolved(t)
       case None => !y.future.Resolved? || y.future == x.future
  }

  lemma BranchEvolves(x: Question, policy: Option<Policy>, preset: Option<string>)
    requires TaskOk(x) && x.stage == Publishing
    ensures var y := Branch(x, policy, preset);
            TaskOk(y) && Evolves(x, y, None) && y.route != Unrouted && y.stage != Publishing && y.future == x.future
  {}

  lemma InterruptEvolves(x: Question)
    requires TaskOk(x)
    ensures TaskOk(Interrupted(x)) && Evolves(x, Interrupted(x), None)
  {}

  lemma TimerEvolves(x: Question)
    requires TaskOk(x)
    ensures TaskOk(TimerFired(x)) && Evolves(x, TimerFired(x), None)
  {}

  lemma WakeEvolves(x: Question)
    requires TaskOk(x)
    ensures TaskOk(Woken(x)) && Evolves(x, Woken(x), None)
  {}

  /** What a step promises about question q. */
  ghost predicate KeepsQuestion(s: State, t: State, q: nat, answer: Option<string>)
    requires q < |s.questions|
  {
    q < |t.questions| && QuestionClean(t, q) && Evolves(s.questions[q], t.questions[q], answer)
  }

  /** Only question p changes, and only it may stop being pending. */
  lemma PutStep(s: State, p: nat, y: Question, q: nat, answer: Option<string>)
    requires p < |s.questions| && q < |s.questions| && QuestionClean(s, q)
    requires q == p ==> TaskOk(y) && Evolves(s.questions[p], y, answer)
    requires q == p ==> (s.questions[p].stage.Finished? ==> y.route == s.questions[p].route)
    requires q == p ==> (s.questions[p].future != Waiting ==> y.future != Waiting)
    requires q != p ==> answer == None
    ensures KeepsQuestion(s, Put(s, p, y), q, answer)
  {}

  /** Using a preset answer up does not touch the questions. */
  lemma PublishIsPut(s: State, p: nat)
    requires p < |s.questions|
    ensures var session := s.questions[p].session;
            var t := Put(s, p, Branch(s.questions[p], PolicyOf(s, session), NextPreset(s, session)));
            Published(s, p).questions == t.questions && Published(s, p).pending == t.pending
  {}

  lemma PutAt(s: State, p: nat, y: Question, q: nat)
    requires p < |s.questions| && q < |s.questions|
    ensures |Put(s, p, y).questions| == |s.questions|
    ensures Put(s, p, y).questions[q] == if p == q then y else s.questions[q]
  {}

  /** What publishing p makes of question q. */
  lemma PublishAt(s: State, p: nat, q: nat)
    requires q < |s.questions|
    ensures var t := Step(s, Publish(p)); var x := s.questions[q];
            && |t.questions| == |s.questions|
            && t.questions[q] == if p == q && x.stage == Publishing
               then Branch(x, PolicyOf(s, x.session), NextPreset(s, x.session)) else x
  {
    if p < |s.questions| && s.questions[p].stage == Publishing {
      var session := s.questions[p].session;
      PublishIsPut(s, p);
      PutAt(s, p, Branch(s.questions[p], PolicyOf(s, session), NextPreset(s, session)), q);
    }
  }

  lemma PublishKeeps(s: State, p: nat, q: nat)
    requires q < |s.questions| && QuestionClean(s, q)
    ensures KeepsQuestion(s, Step(s, Publish(p)), q, None)
  {
    if p < |s.questions| && s.questions[p].stage == Publishing {
      var policy, preset := PolicyOf(s, s.questions[p].session), NextPreset(s, s.questions[p].session);
      if p == q { BranchEvolves(s.questions[q], policy, preset); }
      PutStep(s, p, Branch(s.questions[p], policy, preset), q, None);
      PublishIsPut(s, p);
    }
  }

  lemma TaskKeeps(s: State, op: Op, q: nat)
    requires q < |s.questions| && QuestionClean(s, q) && (op.Interrupting? || op.Timer? || op.Wake?)
    ensures KeepsQuestion(s, Step(s, op), q, None)
  {
    var p := op.question;
    if p < |s.questions| {
      var x := s.questions[p];
      if p == q {
        InterruptEvolves(x);
        TimerEvolves(x);
        WakeEvolves(x);
      }
      var y := if op.Interrupting? then Interrupted(x) else if op.Timer? then TimerFired(x) else Woken(x);
      PutStep(s, p, y, q, None);
    }
  }

  /** The text this step makes `answer` accept for question q. */
  function AnswerOf(s: State, op: Op, q: nat): Option<string> {
    if op.Answer? && op.question == q && Accepts(s, q, op.text) then Some(Strip(op.text)) else None
  }

  lemma AnswerKeeps(s: State, p: nat, text: string, q: nat)
    requires q < |s.questions| && QuestionClean(s, q)
    ensures KeepsQuestion(s, Step(s, Answer(p, text)), q, AnswerOf(s, Answer(p, text), q))
  {
    if Accepts(s, p, text) {
      PutStep(s, p, s.questions[p].(future := Resolved(Strip(text))), q, AnswerOf(s, Answer(p, text), q));
    }
  }

  lemma UnregisterKeeps(s: State, run: RunId, q: nat)
    requires q < |s.questions| && QuestionClean(s, q)
    ensures KeepsQuestion(s, Unregistered(s, run), q, None)
  {
    var x := s.questions[q];
    assert Unregistered(s, run).questions[q] == CancelIf(x, q in s.pending && x.run == run);
  }

  /** How one step may change a question. */
  lemma QuestionStep(s: State, op: Op, q: nat)
    requires q < |s.questions| && QuestionClean(s, q)
    ensures KeepsQuestion(s, Step(s, op), q, AnswerOf(s, op, q))
  {
    if op.Publish? {
      PublishKeeps(s, op.question, q);
    } else if op.Interrupting? || op.Timer? || op.Wake? {
      TaskKeeps(s, op, q);
    } else if op.Answer? {
      AnswerKeeps(s, op.question, op.text, q);
    } else if op.UnregisterRun? {
      UnregisterKeeps(s, op.run, q);
    } else if !op.Ask? {
      OtherOpFrame(s, op);
    }
  }

  // ----- hygiene -----

  /** Every queue that is there belongs to an active run and holds something. */
  ghost predicate QueuesClean(s: State) {
    && (forall r :: r in s.steering ==> r in s.active && s.steering[r] != [])
    && (forall r :: r in s.followUps ==> r in s.active && s.followUps[r] != [])
  }

  ghost predicate Clean(s: State) {
    && QueuesClean(s)
    && (forall q: nat :: QuestionClean(s, q))
    && (forall q :: q in s.pending ==> q < |s.questions|)
    && s.presets.Keys == s.policies.Keys
  }

  lemma QueuesStep(s: State, op: Op)
    requires QueuesClean(s)
    ensures QueuesClean(Step(s, op))
  {
    if QuestionOp(op) {
      QuestionOpFrame(s, op);
    }
  }

  /** Only `ask` makes a new question. */
  lemma QuestionCount(s: State, op: Op)
    ensures |Step(s, op).questions| == if op.Ask? then |s.questions| + 1 else |s.questions|
    ensures Step(s, op).pending <= if op.Ask? then s.pending + {|s.questions|} else s.pending
  {
    if QuestionOp(op) && !op.Ask? {
      QuestionOpFrame(s, op);
    } else if !op.Ask? && !op.UnregisterRun? {
      OtherOpFrame(s, op);
    }
  }

  lemma PresetKeys(s: State, op: Op)
    requires s.presets.Keys == s.policies.Keys
    ensures Step(s, op).presets.Keys == Step(s, op).policies.Keys
  {
    if QuestionOp(op) {
      QuestionOpFrame(s, op);
    }
  }

  lemma CleanStep(s: State, op: Op)
    requires Clean(s)
    ensures Clean(Step(s, op))
  {
    QueuesStep(s, op);
    PresetKeys(s, op);
    QuestionCount(s, op);
    forall q: nat ensures QuestionClean(Step(s, op), q) {
      if q < |s.questions| {
        QuestionStep(s, op, q);
      }
    }
  }

  lemma {:induction false} EveryRunIsClean(mode: Mode, ops: seq<Op>)
    ensures Clean(Run(mode, ops))
  {
    if ops != [] {
      EveryRunIsClean(mode, ops[..|ops| - 1]);
      CleanStep(Run(mode, ops[..|ops| - 1]), ops[|ops| - 1]);
    }
  }

  /** So `has_pending_messages` is exactly key presence in the two tables. */
  lemma PendingIsKeyPresence(mode: Mode, ops: seq<Op>, run: RunId)
    ensures var s := Run(mode, ops);
            HasPending(s, run) <==> run in s.steering || run in s.followUps
    ensures var s := Run(mode, ops); HasPending(s, run) ==> run in s.active
  {
    EveryRunIsClean(mode, ops);
  }

  /** Right after `unregister_run` no table mentions the run, and no future of one
      of its questions is left waiting. */
  lemma UnregisterForgets(mode: Mode, ops: seq<Op>, run: RunId)
    ensures var s := Run(mode, ops + [UnregisterRun(run)]);
            && run !in s.active && run !in s.steering && run !in s.followUps && run !in s.sources && run !in s.senders
            && (forall q: nat :: q in s.pending ==> q < |s.questions| && s.questions[q].run != run)
            && (forall q: nat :: q < |s.questions| && s.questions[q].run == run && !s.questions[q].stage.Finished? ==>
                  s.questions[q].future != Waiting)
  {
    var all := ops + [UnregisterRun(run)];
    assert all[..|all| - 1] == ops;
    EveryRunIsClean(mode, ops);
    EveryRunIsClean(mode, all);
    var s, t := Run(mode, ops), Run(mode, all);
    forall q: nat | q < |t.questions| && t.questions[q].run == run && !t.questions[q].stage.Finished?
      ensures t.questions[q].future != Waiting
    {
      assert QuestionClean(t, q);
    }
  }

  // ----- steering -----

  /** The messages of the run that `steer` accepted since it was last unregistered. */
  function AcceptedSteering(mode: Mode, ops: seq<Op>, run: RunId): seq<Content> {
    if ops == [] then [] else
      var init, op := ops[..|ops| - 1], ops[|ops| - 1];
      var before := AcceptedSteering(mode, init, run);
      if op == UnregisterRun(run) then []
      else if op.Steer? && op.run == run && Admits(Run(mode, init), run, op.content)
      then before + [Normalised(op.content)]
      else before
  }

  /** The messages drained or taken for the run since then. */
  function DeliveredSteering(mode: Mode, ops: seq<Op>, run: RunId): seq<Content> {
    if ops == [] then [] else
      var init, op := ops[..|ops| - 1], ops[|ops| - 1];
      var before := DeliveredSteering(mode, init, run);
      if op == UnregisterRun(run) then []
      else if op == Drain(run) then before + DrainedMessages(Run(mode, init), run)
      else if op == TakePending(run) then before + Queue(Run(mode, init), run)
      else before
  }

  /** How one step moves the run's queue. */
  lemma QueueStep(s: State, op: Op, run: RunId)
    ensures Queue(Step(s, op), run) ==
      if op == UnregisterRun(run) || op == TakePending(run) then []
      else if op.Steer? && op.run == run && Admits(s, run, op.content) then Queue(s, run) + [Normalised(op.content)]
      else if op == Drain(run) then Queue(s, run)[|DrainedMessages(s, run)|..]
      else Queue(s, run)
  {
    if QuestionOp(op) {
      QuestionOpFrame(s, op);
    } else if !op.UnregisterRun? && !op.Steer? && !op.Drain? && !op.TakePending? {
      assert Step(s, op).steering == s.steering;
    }
  }

  lemma FollowUpStep(s: State, op: Op, run: RunId)
    ensures var q := FollowUpQueue(s, run);
            FollowUpQueue(Step(s, op), run) ==
              if op == UnregisterRun(run) then []
              else if op.QueueFollowUp? && op.run == run && AdmitsFollowUp(s, run, op.message) then q + [op.message]
              else if op == DrainFollowUp(run) && q != [] then q[1..]
              else q
  {
    if QuestionOp(op) {
      QuestionOpFrame(s, op);
    } else if !op.UnregisterRun? && !op.QueueFollowUp? && !op.DrainFollowUp? {
      assert Step(s, op).followUps == s.followUps;
    }
  }

  lemma DrainSplitsQueue(s: State, run: RunId)
    ensures DrainedMessages(s, run) + Queue(s, run)[|DrainedMessages(s, run)|..] == Queue(s, run)
  {}

  /** Nothing accepted is lost, repeated or reordered, whatever else happens in
      between and however often the mode is switched. */
  lemma {:induction false} SteeringConserved(mode: Mode, ops: seq<Op>, run: RunId)
    ensures AcceptedSteering(mode, ops, run) == DeliveredSteering(mode, ops, run) + Queue(Run(mode, ops), run)
  {
    if ops != [] {
      var init, op := ops[..|ops| - 1], ops[|ops| - 1];
      var s := Run(mode, init);
      SteeringConserved(mode, init, run);
      QueueStep(s, op, run);
      var delivered := DeliveredSteering(mode, init, run);
      if op.Steer? && op.run == run && Admits(s, run, op.content) {
        Reassociate(delivered, Queue(s, run), [Normalised(op.content)]);
      } else if op == Drain(run) {
        DrainSplitsQueue(s, run);
        Reassociate(delivered, DrainedMessages(s, run), Queue(s, run)[|DrainedMessages(s, run)|..]);
      } else if op == TakePending(run) {
        assert delivered + Queue(s, run) + [] == delivered + Queue(s, run);
      }
    }
  }

  datatype DrainRun = DrainRun(messages: seq<Content>, state: State)

  /** Draining again and again until nothing comes. */
  function DrainUntilEmpty(s: State, run: RunId): DrainRun
    decreases |Queue(s, run)|
  {
    if Queue(s, run) == [] then DrainRun([], s) else
      QueueStep(s, Drain(run), run);
      var rest := DrainUntilEmpty(Drained(s, run), run);
      DrainRun(DrainedMessages(s, run) + rest.messages, rest.state)
  }

  /** Draining in "all" mode takes the whole queue. */
  lemma AllDrained(s: State, run: RunId)
    requires QueuesClean(s)
    ensures Drained(s.(mode := All), run) == s.(mode := All, steering := s.steering - {run})
  {
    if Queue(s, run) == [] {
      assert s.steering - {run} == s.steering;
    }
  }

  /** Draining one at a time takes the first message and touches no other queue. */
  lemma OneDrained(s: State, run: RunId)
    requires s.mode == OneAtATime && Queue(s, run) != []
    ensures var t := Drained(s, run);
            && DrainedMessages(s, run) == [Queue(s, run)[0]] && Queue(t, run) == Queue(s, run)[1..]
            && t == s.(steering := t.steering) && t.steering - {run} == s.steering - {run}
  {}

  /** One at a time until empty hands out what one drain in "all" mode does, and
      leaves the same state but for the mode. */
  lemma {:induction false} DrainModesAgree(s: State, run: RunId)
    requires QueuesClean(s) && s.mode == OneAtATime
    ensures var all := s.(mode := All); var slow := DrainUntilEmpty(s, run);
            && slow.messages == DrainedMessages(all, run)
            && slow.state.(mode := All) == Drained(all, run)
    decreases |Queue(s, run)|
  {
    AllDrained(s, run);
    if Queue(s, run) != [] {
      var t := Drained(s, run);
      OneDrained(s, run);
      QueuesStep(s, Drain(run));
      DrainModesAgree(t, run);
      AllDrained(t, run);
    }
  }

  /** The follow-ups accepted and handed out since the run was last unregistered. */
  function AcceptedFollowUps(mode: Mode, ops: seq<Op>, run: RunId): seq<Message> {
    if ops == [] then [] else
      var init, op := ops[..|ops| - 1], ops[|ops| - 1];
      var before := AcceptedFollowUps(mode, init, run);
      if op == UnregisterRun(run) then []
      else if op.QueueFollowUp? && op.run == run && AdmitsFollowUp(Run(mode, init), run, op.message)
      then before + [op.message]
      else before
  }

  function DeliveredFollowUps(mode: Mode, ops: seq<Op>, run: RunId): seq<Message> {
    if ops == [] then [] else
      var init, op := ops[..|ops| - 1], ops[|ops| - 1];
      var before, q := DeliveredFollowUps(mode, init, run), FollowUpQueue(Run(mode, init), run);
      if op == UnregisterRun(run) then []
      else if op == DrainFollowUp(run) && q != [] then before + q[..1]
      else before
  }

  lemma {:induction false} FollowUpsConserved(mode: Mode, ops: seq<Op>, run: RunId)
    ensures AcceptedFollowUps(mode, ops, run) == DeliveredFollowUps(mode, ops, run) + FollowUpQueue(Run(mode, ops), run)
  {
    if ops != [] {
      var init, op := ops[..|ops| - 1], ops[|ops| - 1];
      var s := Run(mode, init);
      FollowUpsConserved(mode, init, run);
      FollowUpStep(s, op, run);
      var delivered, q := DeliveredFollowUps(mode, init, run), FollowUpQueue(s, run);
      if op == DrainFollowUp(run) && q != [] {
        assert q[..1] + q[1..] == q;
        Reassociate(delivered, q[..1], q[1..]);
      } else if op.QueueFollowUp? && op.run == run && AdmitsFollowUp(s, run, op.message) {
        Reassociate(delivered, q, [op.message]);
      }
    }
  }
}
