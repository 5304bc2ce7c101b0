/** Alerts and auto-starts over whole runs: what is suppressed stays suppressed, and exactly what
    a caller can see in the events ends the suppression. */
module Alerts {
  import opened Common
  import opened Refs
  import opened Tagging
  import opened Updater
  import opened Checks
  import opened Protocol
  import opened Suppression

  /** The step sends the alert. */
  ghost predicate Emits(g: State, e: Event, a: Alert) {
    Times(Step(g, e).t, a) > Times(g.t, a)
  }

  /** After its image loop a poll adds at most one poll-error alert and leaves the digest tables alone. */
  ghost predicate LoopDecided(sc: Scan, t': Tables, s: string) {
    && t'.blocked == sc.t.blocked && t'.notFound == sc.t.notFound && t'.blockedGauge == sc.t.blockedGauge
    && (t'.sent == sc.t.sent || exists m :: t'.sent == sc.t.sent + [PollErrorAlert(s, m)])
  }

  /** The tables after a poll, branch by branch. */
  ghost function AfterPoll(g: State, e: Event): Tables
    requires WholePoll(e)
  {
    var sc, s := ScanOf(g.t, e), e.svc.name;
    if sc.failure.Some? then Report(sc.t, s, sc.failure.value, e.manual)
    else if sc.changed != [] then
      var t := ClearPollError(sc.t, s);
      if e.cancelled then Report(t, s, "context canceled", e.manual) else t.(deploying := t.deploying + {s})
    else if e.status.Running? then ClearPollError(sc.t.(startAttempted := sc.t.startAttempted - {s}), s)
    else if !e.svc.autoStart then ClearPollError(sc.t, s)
    else if Suppressed(sc.t.startAttempted, s, sc.representative) then sc.t
    else sc.t.(startAttempted := sc.t.startAttempted[s := sc.representative], deploying := sc.t.deploying + {s})
  }

  lemma AfterPollIsStep(g: State, e: Event)
    requires WholePoll(e)
    ensures Step(g, e).t == AfterPoll(g, e)
  {
    hide CheckImages, PollError, ClearPollError, Suppressed;
    var sc, s := ScanOf(g.t, e), e.svc.name;
    ClearPollErrorShape(sc.t, s);
    assert s in sc.t.deploying ==> sc.t.deploying + {s} == sc.t.deploying;
  }

  lemma PollStepShape(g: State, e: Event)
    requires WholePoll(e)
    ensures LoopDecided(ScanOf(g.t, e), Step(g, e).t, e.svc.name)
  {
    hide CheckImages, PollError, ClearPollError, Step, Suppressed;
    var sc, s := ScanOf(g.t, e), e.svc.name;
    AfterPollIsStep(g, e);
    ClearPollErrorShape(sc.t, s);
    ClearPollErrorShape(sc.t.(startAttempted := sc.t.startAttempted - {s}), s);
    PollErrorShape(ClearPollError(sc.t, s), s, "context canceled");
    if sc.failure.Some? { PollErrorShape(sc.t, s, sc.failure.value); }
  }

  lemma ErrorAlertIsNoNotFound(t: Tables, t': Tables, s: string, key: string, d: Digest)
    requires t'.sent == t.sent || exists m :: t'.sent == t.sent + [PollErrorAlert(s, m)]
    ensures Times(t', NotFoundAlert(key, d)) == Times(t, NotFoundAlert(key, d))
  {
    if t'.sent != t.sent {
      var m :| t'.sent == t.sent + [PollErrorAlert(s, m)];
      assert multiset(t'.sent) == multiset(t.sent) + multiset{PollErrorAlert(s, m)};
    }
  }

  lemma OtherStepsKeepNotFound(g: State, e: Event, key: string, d: Digest)
    requires !WholePoll(e)
    ensures Step(g, e).t.notFound == g.t.notFound
    ensures Times(Step(g, e).t, NotFoundAlert(key, d)) == Times(g.t, NotFoundAlert(key, d))
  {
    hide Times, ComposeStep, VerifyStep, Without, Check;
    match e {
      case ComposeDone(i, error) => if i < |g.ops| { ComposeStepShape(g, i, error); }
      case VerifyDone(i, outcome) => if i < |g.ops| { VerifyStepShape(g, i, outcome); }
      case _ =>
    }
    if e.ComposeDone? && e.op < |g.ops| {
      ErrorAlertIsNoNotFound(g.t, Step(g, e).t, g.ops[e.op].service, key, d);
    } else {
      ErrorAlertIsNoNotFound(g.t, Step(g, e).t, "", key, d);
    }
  }

  // ---- not-found alerts ----

  /** A not-found alert records its digest, and is not sent while that digest is recorded. */
  lemma NotFoundAlertRecords(g: State, e: Event, key: string, d: Digest)
    requires Emits(g, e, NotFoundAlert(key, d)) && Sane(e)
    ensures d != "" && Get(Step(g, e).t.notFound, key) == d && Get(g.t.notFound, key) != d
    ensures !ReadsOther(e, key, d)
  {
    hide Step, CheckImages, Key, Times;
    if !WholePoll(e) {
      OtherStepsKeepNotFound(g, e, key, d);
    } else {
      var sc, s := ScanOf(g.t, e), e.svc.name;
      PollStepShape(g, e);
      ErrorAlertIsNoNotFound(sc.t, Step(g, e).t, s, key, d);
      if i :| 0 <= i < |e.svc.images| && Key(s, e.svc.images[i]) == key {
        ImagesAreIndependent(g.t, s, e.svc.images, e.readings, i);
        forall j | 0 <= j < |e.svc.images| && Key(s, e.svc.images[j]) == key ensures j == i {
          KeyInjectiveImage(s, e.svc.images[j], e.svc.images[i]);
        }
      } else {
        OtherKeysUntouched(g.t, s, e.svc.images, e.readings, key);
      }
    }
  }

  /** The recorded digest stays until another one is read. */
  lemma NotFoundHolds(g: State, e: Event, key: string, d: Digest)
    requires Get(g.t.notFound, key) == d && d != "" && Sane(e) && !ReadsOther(e, key, d)
    ensures Get(Step(g, e).t.notFound, key) == d
  {
    hide Step, CheckImages, Key, Times;
    if !WholePoll(e) {
      OtherStepsKeepNotFound(g, e, key, d);
    } else {
      var s := e.svc.name;
      PollStepShape(g, e);
      if i :| 0 <= i < |e.svc.images| && Key(s, e.svc.images[i]) == key {
        ImagesAreIndependent(g.t, s, e.svc.images, e.readings, i);
        if Reached(e.readings, i) { assert ReadsAt(e, i, key); }
      } else {
        OtherKeysUntouched(g.t, s, e.svc.images, e.readings, key);
      }
    }
  }

  lemma {:induction false} NotFoundPersists(es: seq<Event>, k: nat, n: nat, key: string, d: Digest)
    requires AllSane(es) && k < n <= |es|
    requires Emits(Run(es[..k]), es[k], NotFoundAlert(key, d))
    requires forall j :: k < j < n ==> !ReadsOther(es[j], key, d)
    ensures d != "" && Get(Run(es[..n]).t.notFound, key) == d
    decreases n
  {
    hide Step, ReadsOther, Sane;
    RunStep(es, n - 1);
    if n == k + 1 {
      NotFoundAlertRecords(Run(es[..k]), es[k], key, d);
    } else {
      NotFoundPersists(es, k, n - 1, key, d);
      NotFoundHolds(Run(es[..n - 1]), es[n - 1], key, d);
    }
  }

  /** Two not-found alerts for one key at one digest are separated by a check that read another digest. */
  lemma NotFoundAlertsAreSeparated(es: seq<Event>, k: nat, m: nat, key: string, d: Digest)
    requires AllSane(es) && k < m < |es|
    requires Emits(Run(es[..k]), es[k], NotFoundAlert(key, d))
    requires Emits(Run(es[..m]), es[m], NotFoundAlert(key, d))
    ensures exists j :: k < j < m && ReadsOther(es[j], key, d)
  {
    hide Step, ReadsOther, Sane, Emits;
    NotFoundAlertRecords(Run(es[..m]), es[m], key, d);
    if forall j :: k < j < m ==> !ReadsOther(es[j], key, d) {
      NotFoundPersists(es, k, m, key, d);
    }
  }

  // ---- poll-error alerts ----

  /** What a step does to the recorded error of one service. */
  datatype ErrorMove = Keep | Clear | Record(message: string) | ClearThenRecord(message: string)

  ghost function ErrorMoveOf(g: State, e: Event, s: string): ErrorMove {
    match e
    case Poll(svc, readings, status, manual, cancelled) =>
      if !WholePoll(e) || svc.name != s then Keep
      else
        var sc := ScanOf(g.t, e);
        if sc.failure.Some? then (if manual then Keep else Record(sc.failure.value))
        else if sc.changed != [] then (if cancelled && !manual then ClearThenRecord("context canceled") else Clear)
        else if status.Running? || !svc.autoStart then Clear
        else Keep
    case ComposeDone(i, error) =>
      if i >= |g.ops| || !g.ops[i].phase.Composing? || g.ops[i].service != s then Keep
      else if error.None? then (if g.ops[i].kind.AutoStarted? then Clear else Keep)
      else if (g.ops[i].kind.Guarded? || g.ops[i].kind.AutoStarted?) && !g.ops[i].manual then Record(error.value)
      else Keep
    case CleanupTick(current) => if s in current then Keep else Clear
    case _ => Keep
  }

  ghost function ErrorAfter(before: string, m: ErrorMove): string {
    match m
    case Keep => before
    case Clear => ""
    case Record(msg) => msg
    case ClearThenRecord(msg) => msg
  }

  /** The alert a move sends: a report that differs from what is recorded at that moment. */
  ghost function AlertOf(before: string, m: ErrorMove): Option<string> {
    match m
    case Record(msg) => if msg != before then Some(msg) else None
    case ClearThenRecord(msg) => if msg != "" then Some(msg) else None
    case _ => None
  }

  /** The effect of a step on one service's error entry and error alerts. */
  ghost predicate Moved(t: Tables, t': Tables, s: string, m: ErrorMove) {
    && Get(t'.errored, s) == ErrorAfter(Get(t.errored, s), m)
    && forall msg :: Times(t', PollErrorAlert(s, msg))
         == Times(t, PollErrorAlert(s, msg)) + (if AlertOf(Get(t.errored, s), m) == Some(msg) then 1 else 0)
  }

  lemma ReportMoves(t: Tables, r: string, msg: string, s: string)
    ensures Moved(t, PollError(t, r, msg), s, if r == s then Record(msg) else Keep)
  {
    var t' := PollError(t, r, msg);
    if t' != t { assert multiset(t'.sent) == multiset(t.sent) + multiset{PollErrorAlert(r, msg)}; }
  }

  lemma ClearMoves(t: Tables, r: string, s: string)
    ensures Moved(t, ClearPollError(t, r), s, if r == s then Clear else Keep)
  {}

  lemma PollMovesError(g: State, e: Event, s: string)
    requires WholePoll(e)
    ensures Moved(g.t, Step(g, e).t, s, ErrorMoveOf(g, e, s))
  {
    hide CheckImages, PollError, ClearPollError, Times, Step, Suppressed, Get;
    AfterPollIsStep(g, e);
    var sc, r := ScanOf(g.t, e), e.svc.name;
    CheckTouchesOnlyItsTables(g.t, r, e.svc.images, e.readings);
    ClearMoves(sc.t, r, s);
    if sc.failure.Some? {
      ReportMoves(sc.t, r, sc.failure.value, s);
    } else if sc.changed != [] {
      ReportMoves(ClearPollError(sc.t, r), r, "context canceled", s);
      SameErrorsSameTimes(ClearPollError(sc.t, r), AfterPoll(g, e), s);
    } else {
      var t' := sc.t.(startAttempted := sc.t.startAttempted - {r});
      ClearMoves(t', r, s);
      SameErrorsSameTimes(sc.t, t', s);
      SameErrorsSameTimes(sc.t, AfterPoll(g, e), s);
    }
  }

  lemma SameErrorsSameTimes(t: Tables, t': Tables, s: string)
    ensures t'.sent == t.sent ==> forall m :: Times(t', PollErrorAlert(s, m)) == Times(t, PollErrorAlert(s, m))
  {}

  lemma StepMovesError(g: State, e: Event, s: string)
    ensures Moved(g.t, Step(g, e).t, s, ErrorMoveOf(g, e, s))
  {
    hide CheckImages, PollError, ClearPollError, Times, BlockDigests, HasPrefix;
    if WholePoll(e) {
      PollMovesError(g, e, s);
    } else if e.ComposeDone? && e.op < |g.ops| && g.ops[e.op].phase.Composing? {
      var op := g.ops[e.op];
      ClearMoves(g.t, op.service, s);
      var t := ClearDeploying(g.t, op.service);
      SameErrorsSameTimes(g.t, t, s);
      if e.error.Some? { ReportMoves(t, op.service, e.error.value, s); }
    } else {
      SameErrorsSameTimes(g.t, Step(g, e).t, s);
    }
  }

  /** The step clears the service's recorded error on its way: a check that decided to deploy, found
      containers running, or found auto-start disabled; a completed auto-start; or the cleanup. */
  ghost predicate ClearsError(g: State, e: Event, s: string) {
    ErrorMoveOf(g, e, s).Clear? || ErrorMoveOf(g, e, s).ClearThenRecord?
  }

  /** The step alerts another message for the service. */
  ghost predicate AlertsOther(g: State, e: Event, s: string, msg: string) {
    exists m :: m != msg && Emits(g, e, PollErrorAlert(s, m))
  }

  /** An error alert is sent exactly when the move reports a message that is not the recorded one. */
  lemma ErrorAlertExactly(g: State, e: Event, s: string, msg: string)
    ensures Emits(g, e, PollErrorAlert(s, msg)) <==> AlertOf(Get(g.t.errored, s), ErrorMoveOf(g, e, s)) == Some(msg)
  {
    hide Step, Times, ErrorMoveOf, AlertOf;
    StepMovesError(g, e, s);
  }

  /** The message on record for a service, folded from the history. */
  ghost function LastMessage(es: seq<Event>, s: string): string {
    if es == [] then ""
    else
      var n := |es| - 1;
      ErrorAfter(LastMessage(es[..n], s), ErrorMoveOf(Run(es[..n]), es[n], s))
  }

  lemma {:induction false} MessageIsLast(es: seq<Event>, s: string)
    ensures Get(Run(es).t.errored, s) == LastMessage(es, s)
  {
    hide Step, ErrorMoveOf, ErrorAfter, Times;
    if es == [] {
      assert Get(INIT.t.errored, s) == "";
    } else {
      MessageIsLast(es[..|es| - 1], s);
      StepMovesError(Run(es[..|es| - 1]), es[|es| - 1], s);
    }
  }

  /** In any run a step alerts a message exactly when it reports one that differs from the last message
      reported since the last clear. */
  lemma ErrorAlertInRun(es: seq<Event>, e: Event, s: string, msg: string)
    ensures Emits(Run(es), e, PollErrorAlert(s, msg))
       <==> AlertOf(LastMessage(es, s), ErrorMoveOf(Run(es), e, s)) == Some(msg)
  {
    hide Run, Step, ErrorMoveOf, AlertOf, Emits;
    MessageIsLast(es, s);
    ErrorAlertExactly(Run(es), e, s, msg);
  }

  lemma ErrorHolds(g: State, e: Event, s: string, msg: string)
    requires Get(g.t.errored, s) == msg && !ClearsError(g, e, s) && !AlertsOther(g, e, s, msg)
    ensures Get(Step(g, e).t.errored, s) == msg
  {
    hide Step, Times, ErrorMoveOf;
    StepMovesError(g, e, s);
    var m := ErrorMoveOf(g, e, s);
    if m.Record? { ErrorAlertExactly(g, e, s, m.message); }
  }

  lemma {:induction false} ErrorPersists(es: seq<Event>, k: nat, n: nat, s: string, msg: string)
    requires k < n <= |es|
    requires Emits(Run(es[..k]), es[k], PollErrorAlert(s, msg))
    requires forall j :: k < j < n ==> !ClearsError(Run(es[..j]), es[j], s) && !AlertsOther(Run(es[..j]), es[j], s, msg)
    ensures Get(Run(es[..n]).t.errored, s) == msg
    decreases n
  {
    hide Step, Run, Emits, ClearsError, AlertsOther, Get;
    RunStep(es, n - 1);
    if n == k + 1 {
      ErrorAlertRecords(Run(es[..k]), es[k], s, msg);
    } else {
      ErrorPersists(es, k, n - 1, s, msg);
      ErrorHolds(Run(es[..n - 1]), es[n - 1], s, msg);
    }
  }

  lemma ErrorAlertRecords(g: State, e: Event, s: string, msg: string)
    requires Emits(g, e, PollErrorAlert(s, msg))
    ensures Get(Step(g, e).t.errored, s) == msg
  {
    hide Step, ErrorMoveOf, Emits, Times;
    StepMovesError(g, e, s);
    ErrorAlertExactly(g, e, s, msg);
  }

  /** Two poll-error alerts with the same message are separated by an alert with another message or by
      a clear; a check cut short by shutdown clears the error itself before reporting. */
  lemma ErrorAlertsAreSeparated(es: seq<Event>, k: nat, m: nat, s: string, msg: string)
    requires k < m < |es|
    requires Emits(Run(es[..k]), es[k], PollErrorAlert(s, msg))
    requires Emits(Run(es[..m]), es[m], PollErrorAlert(s, msg))
    ensures exists j :: k < j <= m &&
              (ClearsError(Run(es[..j]), es[j], s) || AlertsOther(Run(es[..j]), es[j], s, msg))
  {
    hide Step, ErrorMoveOf, Emits, AlertsOther;
    if forall j :: k < j < m ==> !ClearsError(Run(es[..j]), es[j], s) && !AlertsOther(Run(es[..j]), es[j], s, msg) {
      ErrorPersists(es, k, m, s, msg);
      ErrorAlertExactly(Run(es[..m]), es[m], s, msg);
      assert ClearsError(Run(es[..m]), es[m], s);
    }
  }

  /** The suppression promised for persistent errors never applies to a failing deploy: the check that
      decides to deploy has just cleared the record, so every such poll alerts again. */
  lemma FailingDeployAlwaysAlerts(g: State, poll: Event, msg: string)
    requires WholePoll(poll) && !poll.manual && !poll.cancelled && msg != ""
    requires Check(g.t, poll.svc, poll.readings, poll.status).1.Deploy? && poll.svc.name !in g.t.deploying
    ensures Emits(Step(g, poll), ComposeDone(|g.ops|, Some(msg)), PollErrorAlert(poll.svc.name, msg))
  {
    hide CheckImages, Times;
    var s := poll.svc.name;
    CheckTouchesOnlyItsTables(g.t, s, poll.svc.images, poll.readings);
    StepMovesError(g, poll, s);
    ErrorAlertExactly(Step(g, poll), ComposeDone(|g.ops|, Some(msg)), s, msg);
  }

  // ---- auto-start ----

  /** The step starts the service's containers at the representative digest. */
  ghost predicate AutoStarts(g: State, e: Event, s: string, d: Digest) {
    WholePoll(e) && e.svc.name == s &&
    var next := Check(g.t, e.svc, e.readings, e.status).1; next.AutoStart? && next.representative == d
  }

  /** A check of the service that got past its images and found containers running. */
  ghost predicate FoundRunning(g: State, e: Event, s: string) {
    WholePoll(e) && e.svc.name == s && e.status.Running? && ScanOf(g.t, e).failure.None? && ScanOf(g.t, e).changed == []
  }

  lemma StartAttemptedExactly(g: State, e: Event, s: string)
    ensures var d := Get(Step(g, e).t.startAttempted, s);
            if FoundRunning(g, e, s) || (e.CleanupTick? && s !in e.current) then d == ""
            else if exists r :: AutoStarts(g, e, s, r)
            then AutoStarts(g, e, s, d) && (d == "" || d != Get(g.t.startAttempted, s))
            else d == Get(g.t.startAttempted, s)
  {
    hide Check, Without, ComposeStep, VerifyStep, Get;
    if WholePoll(e) {
      PollStartAttempted(g, e, s);
    } else {
      assert forall r :: !AutoStarts(g, e, s, r);
      match e {
        case ComposeDone(i, error) => if i < |g.ops| { ComposeStepShape(g, i, error); }
        case VerifyDone(i, outcome) => if i < |g.ops| { VerifyStepShape(g, i, outcome); }
        case CleanupTick(current) => CleanupOfStarts(g.t, current, s);
        case _ =>
      }
    }
  }

  lemma CleanupOfStarts(t: Tables, current: set<string>, s: string)
    ensures Get(Cleanup(t, current).startAttempted, s) == if s in current then Get(t.startAttempted, s) else ""
  {}

  lemma PollStartAttempted(g: State, e: Event, s: string)
    requires WholePoll(e)
    ensures var d := Get(Step(g, e).t.startAttempted, s);
            if FoundRunning(g, e, s) then d == ""
            else if exists r :: AutoStarts(g, e, s, r)
            then AutoStarts(g, e, s, d) && (d == "" || d != Get(g.t.startAttempted, s))
            else d == Get(g.t.startAttempted, s)
  {
    hide CheckImages, Step, PollError, ClearPollError, Check;
    var sc, r := ScanOf(g.t, e), e.svc.name;
    AfterPollIsStep(g, e);
    CheckTouchesOnlyItsTables(g.t, r, e.svc.images, e.readings);
    ClearPollErrorShape(sc.t, r);
    ClearPollErrorShape(sc.t.(startAttempted := sc.t.startAttempted - {r}), r);
    PollErrorShape(ClearPollError(sc.t, r), r, "context canceled");
    if sc.failure.Some? { PollErrorShape(sc.t, r, sc.failure.value); }
    AutoStartCondition(g, e);
    if AutoStarts(g, e, r, sc.representative) { OneStartPerStep(g, e, r, sc.representative); }
  }

  lemma AutoStartCondition(g: State, e: Event)
    requires WholePoll(e)
    ensures var sc := ScanOf(g.t, e);
            forall s, d :: AutoStarts(g, e, s, d) <==>
              s == e.svc.name && d == sc.representative && sc.failure.None? && sc.changed == [] &&
                  !e.status.Running? && e.svc.autoStart
              && !Suppressed(sc.t.startAttempted, s, d)
  {
    hide CheckImages, ClearPollError, Suppressed;
  }

  lemma {:induction false} AttemptPersists(es: seq<Event>, k: nat, n: nat, s: string, d: Digest)
    requires k < n <= |es| && AutoStarts(Run(es[..k]), es[k], s, d)
    requires forall j :: k < j < n ==> !EndsAttempt(Run(es[..j]), es[j], s, d)
    ensures Get(Run(es[..n]).t.startAttempted, s) == d
    decreases n
  {
    hide Step, Run, AutoStarts, EndsAttempt, Get;
    RunStep(es, n - 1);
    if n > k + 1 {
      AttemptPersists(es, k, n - 1, s, d);
      AttemptHolds(Run(es[..n - 1]), es[n - 1], s, d);
    } else {
      StartRecords(Run(es[..k]), es[k], s, d);
    }
  }

  lemma AttemptHolds(g: State, e: Event, s: string, d: Digest)
    requires Get(g.t.startAttempted, s) == d && !EndsAttempt(g, e, s, d)
    ensures Get(Step(g, e).t.startAttempted, s) == d
  {
    hide Step, Check, AutoStarts, FoundRunning;
    StartAttemptedExactly(g, e, s);
  }

  lemma StartRecords(g: State, e: Event, s: string, d: Digest)
    requires AutoStarts(g, e, s, d)
    ensures Get(Step(g, e).t.startAttempted, s) == d
  {
    hide Step, Check, AutoStarts, FoundRunning;
    StartAttemptedExactly(g, e, s);
    OneStartPerStep(g, e, s, d);
  }

  lemma OneStartPerStep(g: State, e: Event, s: string, d: Digest)
    requires AutoStarts(g, e, s, d)
    ensures !FoundRunning(g, e, s) && !e.CleanupTick?
    ensures forall r :: AutoStarts(g, e, s, r) ==> r == d
  {
    hide CheckImages;
  }

  ghost predicate EndsAttempt(g: State, e: Event, s: string, d: Digest) {
    || FoundRunning(g, e, s)
    || (e.CleanupTick? && s !in e.current)
    || exists r :: r != d && AutoStarts(g, e, s, r)
  }

  /** Two auto-starts at the same non-empty digest are separated by a check that found containers
      running, by a start at another digest, or by the cleanup of an unconfigured service. */
  lemma AutoStartsAreSeparated(es: seq<Event>, k: nat, m: nat, s: string, d: Digest)
    requires k < m < |es| && d != ""
    requires AutoStarts(Run(es[..k]), es[k], s, d) && AutoStarts(Run(es[..m]), es[m], s, d)
    ensures exists j :: k < j < m && EndsAttempt(Run(es[..j]), es[j], s, d)
  {
    hide Step, Check, AutoStarts, FoundRunning, EndsAttempt;
    StartAttemptedExactly(Run(es[..m]), es[m], s);
    OneStartPerStep(Run(es[..m]), es[m], s, d);
    if forall j :: k < j < m ==> !EndsAttempt(Run(es[..j]), es[j], s, d) {
      AttemptPersists(es, k, m, s, d);
    }
  }
}
