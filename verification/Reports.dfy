/** Which events report an error, which clear the record, and which say nothing: from a poll to the result of
    the compose operation it started. */
module Reports {
  import opened Common
  import opened Refs
  import opened Tagging
  import opened Updater
  import opened Checks
  import opened Protocol
  import opened Suppression
  import opened Alerts

  /** The record of a service, and which of its messages a step alerts. */
  ghost predicate Reports(g: State, e: Event, s: string, msg: string) {
    && Get(Step(g, e).t.errored, s) == msg
    && forall m :: Times(Step(g, e).t, PollErrorAlert(s, m))
         == Times(g.t, PollErrorAlert(s, m)) + (if m == msg && msg != Get(g.t.errored, s) then 1 else 0)
  }

  /** No alert, and the record of the service is as it was or, for a clear, gone. */
  ghost predicate Silent(g: State, e: Event, s: string, record: string) {
    && Get(Step(g, e).t.errored, s) == record
    && forall m :: Times(Step(g, e).t, PollErrorAlert(s, m)) == Times(g.t, PollErrorAlert(s, m))
  }

  /** A poll that meets a registry error reports it, unless it was asked for by hand. */
  lemma RegistryErrorIsReported(g: State, poll: Event, i: nat)
    requires WholePoll(poll) && i < |poll.readings| && poll.readings[i].RegistryError?
    requires forall j :: 0 <= j < i ==> poll.readings[j].Reading?
    ensures if poll.manual then Silent(g, poll, poll.svc.name, Get(g.t.errored, poll.svc.name))
            else Reports(g, poll, poll.svc.name, poll.readings[i].message)
  {
    hide Step, Times, CheckImages;
    FirstErrorIsReported(g.t, poll.svc.name, poll.svc.images, poll.readings, i);
    StepMovesError(g, poll, poll.svc.name);
  }

  ghost predicate SomeOutOfDate(t: Tables, poll: Event)
    requires WholePoll(poll)
  {
    exists i: nat :: i < |poll.readings| && OutOfDate(t, poll.svc.name, poll.svc.images, poll.readings, i)
  }

  /** A poll that reads every image clears the record when it decides to deploy, finds containers running, or
      finds auto-start disabled, and leaves it alone otherwise; it alerts nothing. */
  lemma CompletePollIsSilent(g: State, poll: Event)
    requires WholePoll(poll) && !poll.cancelled && Distinct(poll.svc.images)
    requires forall i :: 0 <= i < |poll.readings| ==> poll.readings[i].Reading?
    ensures var s := poll.svc.name;
            var clears := poll.status == Running || !poll.svc.autoStart || SomeOutOfDate(g.t, poll);
            Silent(g, poll, s, if clears then "" else Get(g.t.errored, s))
  {
    hide Step, Times, CheckImages, OutOfDate;
    FailureIffUnreached(g.t, poll.svc.name, poll.svc.images, poll.readings);
    NothingToDeploy(g.t, poll.svc.name, poll.svc.images, poll.readings);
    StepMovesError(g, poll, poll.svc.name);
  }

  /** A poll that decides to deploy but finds the agent shutting down reports that, against a clear record. */
  lemma CancelledDeployIsReported(g: State, poll: Event)
    requires WholePoll(poll) && Check(g.t, poll.svc, poll.readings, poll.status).1.Deploy? && poll.cancelled
    ensures var s, t' := poll.svc.name, Step(g, poll).t;
            && Step(g, poll).ops == g.ops
            && Get(t'.errored, s) == (if poll.manual then "" else "context canceled")
            && forall m :: Times(t', PollErrorAlert(s, m))
                 == Times(g.t, PollErrorAlert(s, m)) + if !poll.manual && m == "context canceled" then 1 else 0
  {
    hide Step, CheckImages, Times, Suppressed;
    StepMovesError(g, poll, poll.svc.name);
    OperationsByEvent(g, poll);
  }

  /** The result of a compose operation, by what started it. */
  lemma ComposeResultByKind(g: State, i: nat, error: Option<string>)
    requires i < |g.ops| && g.ops[i].phase == Composing
    ensures var op, e := g.ops[i], ComposeDone(i, error);
            match op.kind
            case Guarded(_) =>
              if error.Some? && !op.manual then Reports(g, e, op.service, error.value)
              else Silent(g, e, op.service, Get(g.t.errored, op.service))
            case AutoStarted(_) =>
              if error.None? then Silent(g, e, op.service, "")
              else if op.manual then Silent(g, e, op.service, Get(g.t.errored, op.service))
              else Reports(g, e, op.service, error.value)
            case _ => Silent(g, e, op.service, Get(g.t.errored, op.service))
  {
    hide Step, Times;
    StepMovesError(g, ComposeDone(i, error), g.ops[i].service);
  }

  /** A poll decides an auto-start; a failure of its compose operation is reported like a poll error, its
      success clears the record. A start asked for by hand reports nothing. */
  lemma AutoStartIsReported(g: State, poll: Event, msg: string)
    requires WholePoll(poll) && Check(g.t, poll.svc, poll.readings, poll.status).1.AutoStart?
    ensures var g1, s, i := Step(g, poll), poll.svc.name, |g.ops|;
            && Get(g1.t.errored, s) == Get(g.t.errored, s)
            && (if poll.manual then Silent(g1, ComposeDone(i, Some(msg)), s, Get(g.t.errored, s))
                else Reports(g1, ComposeDone(i, Some(msg)), s, msg))
            && Silent(g1, ComposeDone(i, None), s, "")
  {
    hide Step, Check, CheckImages, Times, Reports, Silent;
    OperationsByEvent(g, poll);
    AutoStartKeepsRecord(g, poll);
    ComposeResultByKind(Step(g, poll), |g.ops|, Some(msg));
    ComposeResultByKind(Step(g, poll), |g.ops|, None);
  }

  lemma AutoStartKeepsRecord(g: State, poll: Event)
    requires WholePoll(poll) && Check(g.t, poll.svc, poll.readings, poll.status).1.AutoStart?
    ensures Get(Step(g, poll).t.errored, poll.svc.name) == Get(g.t.errored, poll.svc.name)
  {
    hide Step, CheckImages, Times, Suppressed;
    StepMovesError(g, poll, poll.svc.name);
  }

  /** A poll decides to deploy; a failure of its compose operation is reported against a clear record, its
      success says nothing. */
  lemma DeployIsReported(g: State, poll: Event, msg: string)
    requires WholePoll(poll) && Check(g.t, poll.svc, poll.readings, poll.status).1.Deploy?
    requires !poll.cancelled && poll.svc.name !in g.t.deploying
    ensures var g1, s, i := Step(g, poll), poll.svc.name, |g.ops|;
            && Get(g1.t.errored, s) == ""
            && (if poll.manual then Silent(g1, ComposeDone(i, Some(msg)), s, "")
                else Reports(g1, ComposeDone(i, Some(msg)), s, msg))
            && Silent(g1, ComposeDone(i, None), s, "")
  {
    hide Step, Check, CheckImages, Times, Reports, Silent;
    OperationsByEvent(g, poll);
    DeployClearsRecord(g, poll);
    ComposeResultByKind(Step(g, poll), |g.ops|, Some(msg));
    ComposeResultByKind(Step(g, poll), |g.ops|, None);
  }

  lemma DeployClearsRecord(g: State, poll: Event)
    requires WholePoll(poll) && Check(g.t, poll.svc, poll.readings, poll.status).1.Deploy? && !poll.cancelled
    ensures Get(Step(g, poll).t.errored, poll.svc.name) == ""
  {
    hide Step, CheckImages, Times, Suppressed;
    StepMovesError(g, poll, poll.svc.name);
  }

  /** Compose operations after a drift or a forced redeploy neither alert nor touch the record, however they end. */
  lemma DriftAndForceAreSilent(g: State, e: Event, error: Option<string>)
    requires e.ForceRedeploy? ||
        (e.DriftCheck? && Get(g.t.composeHashes, e.service) != "" && Get(g.t.composeHashes, e.service) != e.hash)
    ensures var g1, i := Step(g, e), |g.ops|;
            && Silent(g, e, e.service, Get(g.t.errored, e.service))
            && Silent(g1, ComposeDone(i, error), e.service, Get(g.t.errored, e.service))
  {
    hide Step, Times, Silent;
    OperationsByEvent(g, e);
    StartIsSilent(g, e);
    ComposeResultByKind(Step(g, e), |g.ops|, error);
  }

  lemma StartIsSilent(g: State, e: Event)
    requires e.ForceRedeploy? || e.DriftCheck?
    ensures Silent(g, e, e.service, Get(g.t.errored, e.service))
    ensures Get(Step(g, e).t.errored, e.service) == Get(g.t.errored, e.service)
  {
    hide Step, Times;
    StepMovesError(g, e, e.service);
  }
}
