/** The manager object, whose methods change its tables in place, proved step by
    step against module Interaction.  An `async` method is one method per stretch
    between suspension points. */
module InteractionManager {
  import opened Sequences
  import I = Interaction

  class InteractionManager {
    var steeringMode: I.Mode
    var activeRuns: set<I.RunId>
    var steering: map<I.RunId, seq<I.Content>>
    var extensionFollowUps: map<I.RunId, seq<I.Message>>
    var followUpSources: map<I.RunId, nat>
    var extensionSenders: map<I.RunId, nat>
    var questionPolicies: map<I.SessionId, I.Policy>
    var presetAnswers: map<I.SessionId, seq<string>>
    var pendingQuestions: set<nat>
    /** Every call of `ask` so far: its future, run and session, and its task. */
    var questions: seq<I.Question>

    function View(): I.State
      reads this
    {
      I.State(steeringMode, activeRuns, steering, extensionFollowUps, followUpSources, extensionSenders,
              questionPolicies, presetAnswers, pendingQuestions, questions)
    }

    /** Pending questions are questions that were asked. */
    ghost predicate Valid()
      reads this
    {
      forall q :: q in pendingQuestions ==> q < |questions|
    }

    constructor (mode: I.Mode)
      ensures Valid() && View() == I.Initial(mode)
    {
      steeringMode := mode;
      activeRuns, steering, extensionFollowUps := {}, map[], map[];
      followUpSources, extensionSenders := map[], map[];
      questionPolicies, presetAnswers := map[], map[];
      pendingQuestions, questions := {}, [];
    }

    method SetSteeringMode(mode: I.Mode)
      modifies this
      ensures View() == I.Step(old(View()), I.SetMode(mode))
    {
      steeringMode := mode;
    }

    method SetQuestionPolicy(session: I.SessionId, policy: I.Policy)
      modifies this
      ensures View() == I.Step(old(View()), I.SetPolicy(session, policy))
    {
      questionPolicies := questionPolicies[session := policy];
      presetAnswers := presetAnswers[session := policy.answers];
    }

    method ClearQuestionPolicy(session: I.SessionId)
      modifies this
      ensures View() == I.Step(old(View()), I.ClearPolicy(session))
    {
      questionPolicies := questionPolicies - {session};
      presetAnswers := presetAnswers - {session};
    }

    method RegisterRun(run: I.RunId)
      modifies this
      ensures View() == I.Step(old(View()), I.RegisterRun(run))
    {
      activeRuns := activeRuns + {run};
    }

    /** Drops everything of the run, then walks a snapshot of the pending table. */
    method UnregisterRun(run: I.RunId)
      requires Valid()
      modifies this
      ensures Valid() && View() == I.Step(old(View()), I.UnregisterRun(run))
    {
      ghost var before := View();
      activeRuns := activeRuns - {run};
      steering := steering - {run};
      followUpSources := followUpSources - {run};
      extensionSenders := extensionSenders - {run};
      extensionFollowUps := extensionFollowUps - {run};
      CancelPending(run);
      assert pendingQuestions == I.PendingWithout(before, run);
    }

    /** The loop over the snapshot. */
    method CancelPending(run: I.RunId)
      requires Valid()
      modifies this`pendingQuestions, this`questions
      ensures Valid() && questions == I.CancelFutures(old(questions), old(pendingQuestions), run)
      ensures pendingQuestions == set q | q in old(pendingQuestions) && old(questions)[q].run != run
    {
      var snapshot := pendingQuestions;
      var rest := snapshot;
      while rest != {}
        invariant rest <= snapshot && |questions| == |old(questions)|
        invariant forall q :: q in pendingQuestions <==> q in snapshot && (q in rest || old(questions)[q].run != run)
        invariant forall q :: 0 <= q < |questions| ==>
          questions[q] == I.CancelIf(old(questions)[q], q in snapshot && q !in rest && old(questions)[q].run == run)
        decreases rest
      {
        var q :| q in rest;
        rest := rest - {q};
        if questions[q].run != run {
          continue;
        }
        pendingQuestions := pendingQuestions - {q};
        if questions[q].future == I.Waiting {
          questions := questions[q := questions[q].(future := I.Cancelled)];
        }
      }
    }

    method Steer(run: I.RunId, content: I.Content) returns (accepted: bool)
      modifies this
      ensures accepted == I.Admits(old(View()), run, content)
      ensures View() == I.Step(old(View()), I.Steer(run, content))
    {
      var normalized := I.Normalised(content);
      if run !in activeRuns || I.Empty(normalized) {
        return false;
      }
      var queued := if run in steering then steering[run] else [];
      steering := steering[run := queued + [normalized]];
      return true;
    }

    method DrainSteering(run: I.RunId) returns (messages: seq<I.Content>)
      modifies this
      ensures messages == I.DrainedMessages(old(View()), run)
      ensures View() == I.Step(old(View()), I.Drain(run))
    {
      if run !in steering || steering[run] == [] {
        return [];
      }
      var queued := steering[run];
      if steeringMode == I.All {
        steering := steering - {run};
        return queued;
      }
      var message := queued[0];
      queued := queued[1..];
      if queued == [] {
        steering := steering - {run};
      } else {
        steering := steering[run := queued];
      }
      return [message];
    }

    method TakePendingSteering(run: I.RunId) returns (messages: seq<I.Content>)
      modifies this
      ensures messages == I.Queue(old(View()), run)
      ensures View() == I.Step(old(View()), I.TakePending(run))
    {
      messages := if run in steering then steering[run] else [];
      steering := steering - {run};
    }

    method BindFollowUp(run: I.RunId, source: nat)
      modifies this
      ensures View() == I.Step(old(View()), I.BindFollowUp(run, source))
    {
      followUpSources := followUpSources[run := source];
    }

    method UnbindFollowUp(run: I.RunId)
      modifies this
      ensures View() == I.Step(old(View()), I.UnbindFollowUp(run))
    {
      followUpSources := followUpSources - {run};
      extensionSenders := extensionSenders - {run};
    }

    method BindExtensionSender(run: I.RunId, sender: nat)
      modifies this
      ensures View() == I.Step(old(View()), I.BindSender(run, sender))
    {
      extensionSenders := extensionSenders[run := sender];
    }

    method QueueExtensionFollowUp(run: I.RunId, message: I.Message) returns (accepted: bool)
      modifies this
      ensures accepted == I.AdmitsFollowUp(old(View()), run, message)
      ensures View() == I.Step(old(View()), I.QueueFollowUp(run, message))
    {
      if run !in activeRuns || !("role" in message && message["role"] == "custom") {
        return false;
      }
      var queued := if run in extensionFollowUps then extensionFollowUps[run] else [];
      extensionFollowUps := extensionFollowUps[run := queued + [message]];
      return true;
    }

    /** An extension message first; else the bound source, which lies outside. */
    method DrainFollowUp(run: I.RunId) returns (message: Option<I.Message>, source: Option<nat>)
      modifies this
      ensures var q := I.FollowUpQueue(old(View()), run);
              if q != [] then message == Some(q[0]) && source == None
              else message == None &&
                   source == if run in old(followUpSources) then Some(old(followUpSources)[run]) else None
      ensures View() == I.Step(old(View()), I.DrainFollowUp(run))
    {
      if run in extensionFollowUps && extensionFollowUps[run] != [] {
        var extension := extensionFollowUps[run];
        message := Some(extension[0]);
        extension := extension[1..];
        if extension == [] {
          extensionFollowUps := extensionFollowUps - {run};
        } else {
          extensionFollowUps := extensionFollowUps[run := extension];
        }
        return message, None;
      }
      return None, if run in followUpSources then Some(followUpSources[run]) else None;
    }

    method HasPendingMessages(run: I.RunId) returns (r: bool)
      ensures r == I.HasPending(View(), run)
    {
      return (run in steering && steering[run] != []) || (run in extensionFollowUps && extensionFollowUps[run] != []);
    }

    /** `ask` until it suspends in `publish`. */
    method AskBegin(run: I.RunId, session: I.SessionId) returns (q: nat)
      requires Valid()
      modifies this
      ensures Valid() && q == |old(questions)|
      ensures View() == I.Step(old(View()), I.Ask(run, session))
    {
      q := |questions|;
      questions := questions + [I.Question(run, session, I.Waiting, I.Unrouted, I.Publishing, I.NoInterrupt)];
      pendingQuestions := pendingQuestions + {q};
    }

    /** `ask` after `publish`: the policy decides. */
    method AskPublished(q: nat)
      requires Valid() && q < |questions| && questions[q].stage == I.Publishing
      modifies this
      ensures Valid() && View() == I.Step(old(View()), I.Publish(q))
    {
      var session := questions[q].session;
      if session !in questionPolicies {
        AwaitFuture(q, I.NoPolicy);
        return;
      }
      var policy := questionPolicies[session];
      if policy.mode == "preset" {
        if session in presetAnswers && presetAnswers[session] != [] {
          var answers := presetAnswers[session];
          presetAnswers := presetAnswers[session := answers[1..]];
          Finish(q, I.Preset, I.FromPreset(answers[0]));
          return;
        }
        Finish(q, I.Preset, I.Exhausted);
        return;
      }
      if policy.mode == "timeout" && policy.hasTimeout {
        AwaitFuture(q, I.Timeout);
        return;
      }
      Finish(q, I.Refused, I.InputRequired);
    }

    method AwaitFuture(q: nat, route: I.Route)
      requires Valid() && q < |questions| && !questions[q].stage.Finished? && route != I.Unrouted
      modifies this
      ensures Valid() && View() == I.Put(old(View()), q, I.Await(old(questions)[q], route))
    {
      match questions[q].future {
        case Waiting => questions := questions[q := questions[q].(route := route, stage := I.Awaiting)];
        case Resolved(t) => Finish(q, route, I.Answered(t));
        case Cancelled => Finish(q, route, I.Aborted);
      }
    }

    /** The end of `ask`, with its `finally` clause. */
    method Finish(q: nat, route: I.Route, outcome: I.Outcome)
      requires Valid() && q < |questions| && !questions[q].stage.Finished? && route != I.Unrouted
      modifies this
      ensures Valid() && View() == I.Put(old(View()), q, I.End(old(questions)[q], route, outcome))
    {
      pendingQuestions := pendingQuestions - {q};
      questions := questions[q := questions[q].(route := route, stage := I.Finished(outcome))];
    }

    /** The task of `ask` resumes. */
    method AskWake(q: nat)
      requires Valid() && q < |questions| && questions[q].stage == I.Awaiting && questions[q].future != I.Waiting
      requires questions[q].route != I.Unrouted
      modifies this
      ensures Valid() && View() == I.Step(old(View()), I.Wake(q))
    {
      var x := questions[q];
      match x.interrupt {
        case TaskCancelled => Finish(q, x.route, I.Aborted);
        case TimeoutFired => Finish(q, x.route, I.TimedOut);
        case NoInterrupt => Finish(q, x.route, if x.future.Resolved? then I.Answered(x.future.text) else I.Aborted);
      }
    }

    method AnswerQuestion(q: nat, answer: string) returns (accepted: bool)
      requires Valid()
      modifies this
      ensures accepted == I.Accepts(old(View()), q, answer)
      ensures Valid() && View() == I.Step(old(View()), I.Answer(q, answer))
    {
      var normalized := I.Strip(answer);
      if q !in pendingQuestions || questions[q].future != I.Waiting || normalized == "" {
        return false;
      }
      questions := questions[q := questions[q].(future := I.Resolved(normalized))];
      return true;
    }
  }
}
