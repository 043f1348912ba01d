/** The interaction manager's state and the atomic steps it moves by: everything
    a call does between two suspension points is one step. */
module Interaction {
  import opened Sequences
  import Text

  type RunId = string
  type SessionId = string

  datatype Content = Words(text: string) | Blocks(blocks: seq<string>) | Fields(fields: map<string, string>)

  type Message = map<string, string>

  datatype Mode = OneAtATime | All

  /** hasTimeout says whether `timeout_s` is set; its length is up to the clock. */
  datatype Policy = Policy(mode: string, hasTimeout: bool, answers: seq<string>)

  datatype FutureState = Waiting | Resolved(text: string) | Cancelled

  /** Which branch `ask` took once its question was published. */
  datatype Route = Unrouted | NoPolicy | Timeout | Preset | Refused

  /** How `ask` ended: with an answer, with a preset answer, or raising. */
  datatype Outcome = Answered(text: string) | FromPreset(text: string) | Exhausted | InputRequired | TimedOut | Aborted

  datatype Stage = Publishing | Awaiting | Finished(outcome: Outcome)

  /** A cancellation on its way to the suspended task. */
  datatype Interrupt = NoInterrupt | TimeoutFired | TaskCancelled

  /** One call of `ask`: its future and how far its task has come. */
  datatype Question = Question(
    run: RunId, session: SessionId, future: FutureState, route: Route, stage: Stage, interrupt: Interrupt)

  /** Question ids are positions in questions; pending is `_pending_questions`. */
  datatype State = State(
    mode: Mode,
    active: set<RunId>,
    steering: map<RunId, seq<Content>>,
    followUps: map<RunId, seq<Message>>,
    sources: map<RunId, nat>,
    senders: map<RunId, nat>,
    policies: map<SessionId, Policy>,
    presets: map<SessionId, seq<string>>,
    pending: set<nat>,
    questions: seq<Question>)

  function Initial(mode: Mode): State {
    State(mode, {}, map[], map[], map[], map[], map[], map[], {}, [])
  }

  function Strip(s: string): string {
    Text.Trim(Text.PySpace, s)
  }

  function Normalised(c: Content): Content {
    if c.Words? then Words(Strip(c.text)) else c
  }

  predicate Empty(c: Content) {
    match c
    case Words(t) => t == ""
    case Blocks(b) => b == []
    case Fields(f) => f == map[]
  }

  function Queue(s: State, run: RunId): seq<Content> {
    if run in s.steering then s.steering[run] else []
  }

  function FollowUpQueue(s: State, run: RunId): seq<Message> {
    if run in s.followUps then s.followUps[run] else []
  }

  // ----- runs and queues -----

  predicate Admits(s: State, run: RunId, content: Content) {
    run in s.active && !Empty(Normalised(content))
  }

  function Steered(s: State, run: RunId, content: Content): State {
    if Admits(s, run, content)
    then s.(steering := s.steering[run := Queue(s, run) + [Normalised(content)]])
    else s
  }

  /** What one drain hands out. */
  function DrainedMessages(s: State, run: RunId): seq<Content> {
    if s.mode == All || Queue(s, run) == [] then Queue(s, run) else Queue(s, run)[..1]
  }

  function Drained(s: State, run: RunId): State {
    var left := Queue(s, run)[|DrainedMessages(s, run)|..];
    if Queue(s, run) == [] then s
    else s.(steering := if left == [] then s.steering - {run} else s.steering[run := left])
  }

  function Taken(s: State, run: RunId): State {
    s.(steering := s.steering - {run})
  }

  predicate AdmitsFollowUp(s: State, run: RunId, message: Message) {
    run in s.active && "role" in message && message["role"] == "custom"
  }

  function QueuedFollowUp(s: State, run: RunId, message: Message): State {
    if AdmitsFollowUp(s, run, message)
    then s.(followUps := s.followUps[run := FollowUpQueue(s, run) + [message]])
    else s
  }

  function DrainedFollowUp(s: State, run: RunId): State {
    var q := FollowUpQueue(s, run);
    if q == [] then s
    else s.(followUps := if |q| == 1 then s.followUps - {run} else s.followUps[run := q[1..]])
  }

  predicate HasPending(s: State, run: RunId) {
    Queue(s, run) != [] || FollowUpQueue(s, run) != []
  }

  /** A future that is done is not cancelled any more. */
  function CancelIf(x: Question, cancel: bool): Question {
    if cancel && x.future == Waiting then x.(future := Cancelled) else x
  }

  /** The futures of the run's pending questions are cancelled unless done. */
  function CancelFutures(questions: seq<Question>, pending: set<nat>, run: RunId): (r: seq<Question>)
    ensures |r| == |questions|
    ensures forall i :: 0 <= i < |r| ==> r[i] == CancelIf(questions[i], i in pending && questions[i].run == run)
  {
    seq(|questions|, i requires 0 <= i < |questions| => CancelIf(questions[i], i in pending && questions[i].run == run))
  }

  function PendingWithout(s: State, run: RunId): set<nat> {
    set q | q in s.pending && !(q < |s.questions| && s.questions[q].run == run)
  }

  function Unregistered(s: State, run: RunId): State {
    s.(active := s.active - {run},
       steering := s.steering - {run},
       followUps := s.followUps - {run},
       sources := s.sources - {run},
       senders := s.senders - {run},
       pending := PendingWithout(s, run),
       questions := CancelFutures(s.questions, s.pending, run))
  }

  // ----- questions -----

  /** `ask` up to its first suspension: the question is pending and being published. */
  function Asked(s: State, run: RunId, session: SessionId): State {
    s.(pending := s.pending + {|s.questions|},
       questions := s.questions + [Question(run, session, Waiting, Unrouted, Publishing, NoInterrupt)])
  }

  function End(x: Question, route: Route, outcome: Outcome): Question {
    x.(route := route, stage := Finished(outcome))
  }

  /** `await future`: a future that is done does not suspend. */
  function Await(x: Question, route: Route): Question {
    match x.future
    case Waiting => x.(route := route, stage := Awaiting)
    case Resolved(t) => End(x, route, Answered(t))
    case Cancelled => End(x, route, Aborted)
  }

  /** The branch `ask` takes on the session's policy and its next preset answer. */
  function Branch(x: Question, policy: Option<Policy>, preset: Option<string>): Question {
    match policy
    case None => Await(x, NoPolicy)
    case Some(p) =>
      if p.mode == "preset" then
        match preset
        case Some(a) => End(x, Preset, FromPreset(a))
        case None => End(x, Preset, Exhausted)
      else if p.mode == "timeout" && p.hasTimeout then Await(x, Timeout)
      else End(x, Refused, InputRequired)
  }

  /** `task.cancel()` from outside, or an exception out of `publish`; an awaited
      future is cancelled with its task unless it is done. */
  function Interrupted(x: Question): Question {
    match x.stage
    case Publishing => x.(stage := Finished(Aborted))
    case Awaiting => CancelIf(x, true).(interrupt := TaskCancelled)
    case Finished(_) => x
  }

  /** The timer of `wait_for`: it cancels the task, and with it a waiting future. */
  function TimerFired(x: Question): Question {
    if x.stage == Awaiting && x.route == Timeout && x.interrupt == NoInterrupt
    then CancelIf(x, true).(interrupt := TimeoutFired)
    else x
  }

  /** What awaiting the future comes to: a cancellation on its way comes first. */
  function AwaitedOutcome(x: Question): Outcome {
    match x.interrupt
    case TaskCancelled => Aborted
    case TimeoutFired => TimedOut
    case NoInterrupt => if x.future.Resolved? then Answered(x.future.text) else Aborted
  }

  /** The suspended task resumes once its future is done. */
  function Woken(x: Question): Question {
    if x.stage != Awaiting || x.future == Waiting then x else End(x, x.route, AwaitedOutcome(x))
  }

  /** x ends as y past its `try`, so that the `finally` clause runs.  While the
      question is still being published the `try` has not been entered. */
  predicate Leaves(x: Question, y: Question) {
    !x.stage.Finished? && y.stage.Finished? && y.route != Unrouted
  }

  /** Question q becomes y; the `finally` clause takes it out of the pending ones. */
  function Put(s: State, q: nat, y: Question): State
    requires q < |s.questions|
  {
    s.(questions := s.questions[q := y],
       pending := if Leaves(s.questions[q], y) then s.pending - {q} else s.pending)
  }

  function PolicyOf(s: State, session: SessionId): Option<Policy> {
    if session in s.policies then Some(s.policies[session]) else None
  }

  function Presets(s: State, session: SessionId): seq<string> {
    if session in s.presets then s.presets[session] else []
  }

  function NextPreset(s: State, session: SessionId): Option<string> {
    if Presets(s, session) == [] then None else Some(Presets(s, session)[0])
  }

  predicate UsesPreset(y: Question) {
    y.stage.Finished? && y.stage.outcome.FromPreset?
  }

  /** The question has been published; `ask` looks the policy up and branches. */
  function Published(s: State, q: nat): State
    requires q < |s.questions|
  {
    var session := s.questions[q].session;
    var y := Branch(s.questions[q], PolicyOf(s, session), NextPreset(s, session));
    if UsesPreset(y) && session in s.presets && s.presets[session] != []
    then Put(s, q, y).(presets := s.presets[session := s.presets[session][1..]])
    else Put(s, q, y)
  }

  /** Whether `answer` is accepted. */
  predicate Accepts(s: State, q: nat, text: string) {
    q in s.pending && q < |s.questions| && s.questions[q].future == Waiting && Strip(text) != ""
  }

  function AnswerGiven(s: State, q: nat, text: string): State {
    if Accepts(s, q, text)
    then Put(s, q, s.questions[q].(future := Resolved(Strip(text))))
    else s
  }

  // ----- steps -----

  datatype Op =
    | SetMode(mode: Mode)
    | SetPolicy(session: SessionId, policy: Policy)
    | ClearPolicy(session: SessionId)
    | RegisterRun(run: RunId)
    | UnregisterRun(run: RunId)
    | Steer(run: RunId, content: Content)
    | Drain(run: RunId)
    | TakePending(run: RunId)
    | QueueFollowUp(run: RunId, message: Message)
    | DrainFollowUp(run: RunId)
    | BindFollowUp(run: RunId, source: nat)
    | UnbindFollowUp(run: RunId)
    | BindSender(run: RunId, sender: nat)
    | Ask(run: RunId, session: SessionId)
    | Publish(question: nat)
    | Interrupting(question: nat)
    | Timer(question: nat)
    | Wake(question: nat)
    | Answer(question: nat, text: string)

  /** A step of a task that is not at that point does nothing. */
  function Step(s: State, op: Op): State {
    match op
    case SetMode(m) => s.(mode := m)
    case SetPolicy(session, policy) =>
      s.(policies := s.policies[session := policy], presets := s.presets[session := policy.answers])
    case ClearPolicy(session) =>
      s.(policies := s.policies - {session}, presets := s.presets - {session})
    case RegisterRun(run) => s.(active := s.active + {run})
    case UnregisterRun(run) => Unregistered(s, run)
    case Steer(run, content) => Steered(s, run, content)
    case Drain(run) => Drained(s, run)
    case TakePending(run) => Taken(s, run)
    case QueueFollowUp(run, message) => QueuedFollowUp(s, run, message)
    case DrainFollowUp(run) => DrainedFollowUp(s, run)
    case BindFollowUp(run, source) => s.(sources := s.sources[run := source])
    case UnbindFollowUp(run) => s.(sources := s.sources - {run}, senders := s.senders - {run})
    case BindSender(run, sender) => s.(senders := s.senders[run := sender])
    case Ask(run, session) => Asked(s, run, session)
    case Publish(q) => if q < |s.questions| && s.questions[q].stage == Publishing then Published(s, q) else s
    case Interrupting(q) => if q < |s.questions| then Put(s, q, Interrupted(s.questions[q])) else s
    case Timer(q) => if q < |s.questions| then Put(s, q, TimerFired(s.questions[q])) else s
    case Wake(q) => if q < |s.questions| then Put(s, q, Woken(s.questions[q])) else s
    case Answer(q, text) => AnswerGiven(s, q, text)
  }

  /** The state after a history of steps, the last one last. */
  function Run(mode: Mode, ops: seq<Op>): State {
    if ops == [] then Initial(mode) else Step(Run(mode, ops[..|ops| - 1]), ops[|ops| - 1])
  }
}
