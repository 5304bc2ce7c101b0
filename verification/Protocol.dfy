/** The deploy agent as one protocol of atomic steps: polls, compose-drift redeploys, forced
    redeploys, compose results, verification results, manual unblocks and the hourly cleanup,
    in any interleaving. */
module Protocol {
  import opened Common
  import opened Refs
  import opened Tagging
  import opened Updater
  import opened Checks

  /** Why a compose operation was started. Only a guarded deploy gives up when the flag is taken. */
  datatype Kind = Guarded(changed: seq<ImageChange>) | AutoStarted(representative: Digest) | Drifted | Forced

  datatype Phase = Composing | Verifying

  /** An operation in flight: it ends by clearing the deploying flag of its service. */
  datatype Op = Op(service: string, kind: Kind, manual: bool, phase: Phase)

  datatype Outcome = Succeeded | Failing | Abandoned

  datatype State = State(t: Tables, ops: seq<Op>)

  const INIT := State(EMPTY_TABLES, [])

  datatype Event =
    | Poll(svc: Service, readings: seq<Reading>, status: ContainerStatus, manual: bool, cancelled: bool)
    | DriftCheck(service: string, hash: string)
    | ForceRedeploy(service: string)
    | ComposeDone(op: nat, error: Option<string>)
    | VerifyDone(op: nat, outcome: Outcome)
    | UnblockCall(service: string)
    | CleanupTick(current: set<string>)

  /** A poll with one reading per image. */
  ghost predicate WholePoll(e: Event) {
    e.Poll? && |e.readings| == |e.svc.images|
  }

  ghost function ScanOf(t: Tables, e: Event): Scan
    requires WholePoll(e)
  {
    CheckImages(t, e.svc.name, e.svc.images, e.readings)
  }

  function RemoveAt<T>(s: seq<T>, i: nat): seq<T>
    requires i < |s|
  {
    s[..i] + s[i + 1..]
  }

  /** Errors of manual triggers are alerted without touching the suppression table. */
  function Report(t: Tables, s: string, msg: string, manual: bool): Tables {
    if manual then t else PollError(t, s, msg)
  }

  function Begin(g: State, t: Tables, s: string, kind: Kind, manual: bool): State {
    State(TryStart(t, s).0, g.ops + [Op(s, kind, manual, Composing)])
  }

  function PollStep(g: State, e: Event): State
    requires WholePoll(e)
  {
    var s := e.svc.name;
    var (t, next) := Check(g.t, e.svc, e.readings, e.status);
    match next
    case Idle => g.(t := t)
    case Failed(msg) => g.(t := Report(t, s, msg, e.manual))
    case AutoStart(_, rep) => Begin(g, t, s, AutoStarted(rep), e.manual)
    case Deploy(changed) =>
      if e.cancelled then g.(t := Report(t, s, "context canceled", e.manual))
      else if TryStart(t, s).1 then Begin(g, t, s, Guarded(changed), e.manual)
      else g.(t := t)
  }

  function ComposeStep(g: State, i: nat, error: Option<string>): State
    requires i < |g.ops|
  {
    var op := g.ops[i];
    if error.None? then
      State(if op.kind.AutoStarted? then ClearPollError(g.t, op.service) else g.t, g.ops[i := op.(phase := Verifying)])
    else
      var t := ClearDeploying(g.t, op.service);
      State(if op.kind.Guarded? || op.kind.AutoStarted? then Report(t, op.service, error.value, op.manual) else t,
            RemoveAt(g.ops, i))
  }

  function VerifyStep(g: State, i: nat, outcome: Outcome): State
    requires i < |g.ops|
  {
    var op := g.ops[i];
    var t := if op.kind.Guarded? && outcome.Failing? then Block(g.t, op.service, op.kind.changed) else g.t;
    State(ClearDeploying(t, op.service), RemoveAt(g.ops, i))
  }

  /** Events that do not fit the state are ignored. */
  function Step(g: State, e: Event): State {
    match e
    case Poll(svc, readings, _, _, _) => if |readings| == |svc.images| then PollStep(g, e) else g
    case DriftCheck(s, hash) =>
      var (t, redeploy) := Drift(g.t, s, hash);
      if redeploy then Begin(g, t, s, Drifted, false) else g.(t := t)
    case ForceRedeploy(s) => Begin(g, g.t, s, Forced, false)
    case ComposeDone(i, error) => if i < |g.ops| && g.ops[i].phase.Composing? then ComposeStep(g, i, error) else g
    case VerifyDone(i, outcome) => if i < |g.ops| && g.ops[i].phase.Verifying? then VerifyStep(g, i, outcome) else g
    case UnblockCall(s) => g.(t := Unblock(g.t, s).0)
    case CleanupTick(current) => g.(t := Cleanup(g.t, current))
  }

  function Run(es: seq<Event>): State {
    if es == [] then INIT else Step(Run(es[..|es| - 1]), es[|es| - 1])
  }

  lemma RunStep(es: seq<Event>, k: nat)
    requires k < |es|
    ensures Run(es[..k + 1]) == Step(Run(es[..k]), es[k])
  {
    assert es[..k + 1][..k] == es[..k];
  }

  // ---- the deploying flag ----

  function InFlight(ops: seq<Op>, s: string): nat {
    if ops == [] then 0
    else InFlight(ops[..|ops| - 1], s) + if ops[|ops| - 1].service == s then 1 else 0
  }

  lemma InFlightAppend(ops: seq<Op>, op: Op, s: string)
    ensures InFlight(ops + [op], s) == InFlight(ops, s) + if op.service == s then 1 else 0
  {
    assert (ops + [op])[..|ops|] == ops;
  }

  lemma {:induction false} InFlightWithout(ops: seq<Op>, i: nat, s: string)
    requires i < |ops|
    ensures InFlight(RemoveAt(ops, i), s) == InFlight(ops, s) - if ops[i].service == s then 1 else 0
    decreases |ops|
  {
    var n := |ops| - 1;
    if i == n {
      assert RemoveAt(ops, i) == ops[..n];
    } else {
      assert RemoveAt(ops, i) == RemoveAt(ops[..n], i) + [ops[n]];
      InFlightWithout(ops[..n], i, s);
      InFlightAppend(RemoveAt(ops[..n], i), ops[n], s);
    }
  }

  lemma {:induction false} InFlightUpdate(ops: seq<Op>, i: nat, op: Op, s: string)
    requires i < |ops| && op.service == ops[i].service
    ensures InFlight(ops[i := op], s) == InFlight(ops, s)
  {
    var n := |ops| - 1;
    assert ops[i := op][..n] == if i < n then ops[..n][i := op] else ops[..n];
    if i < n { InFlightUpdate(ops[..n], i, op, s); }
  }

  /** How a step moves the flag and the operations of one service. */
  datatype Move = Nothing | Starts(service: string) | Ends(service: string)

  function MoveOf(g: State, e: Event): Move {
    match e
    case Poll(svc, readings, status, _, cancelled) =>
      if |readings| != |svc.images| then Nothing
      else
        (match Check(g.t, svc, readings, status).1
         case AutoStart(_, _) => Starts(svc.name)
         case Deploy(_) => if cancelled || svc.name in g.t.deploying then Nothing else Starts(svc.name)
         case _ => Nothing)
    case DriftCheck(s, hash) => if Drift(g.t, s, hash).1 then Starts(s) else Nothing
    case ForceRedeploy(s) => Starts(s)
    case ComposeDone(i, error) =>
      if i < |g.ops| && g.ops[i].phase.Composing? && error.Some? then Ends(g.ops[i].service) else Nothing
    case VerifyDone(i, _) =>
      if i < |g.ops| && g.ops[i].phase.Verifying? then Ends(g.ops[i].service) else Nothing
    case _ => Nothing
  }

  lemma CheckSetsFlagForAutoStart(t: Tables, svc: Service, readings: seq<Reading>, status: ContainerStatus)
    requires |readings| == |svc.images|
    ensures var (t', next) := Check(t, svc, readings, status);
            t'.deploying == if next.AutoStart? then t.deploying + {svc.name} else t.deploying
  {
    hide CheckImages, Suppressed;
    CheckTouchesOnlyItsTables(t, svc.name, svc.images, readings);
    assert svc.name in t.deploying ==> t.deploying + {svc.name} == t.deploying;
  }

  lemma StepFlags(g: State, e: Event)
    ensures Step(g, e).t.deploying == match MoveOf(g, e)
      case Nothing => g.t.deploying
      case Starts(r) => g.t.deploying + {r}
      case Ends(r) => g.t.deploying - {r}
  {
    hide Check, BlockDigests, HasPrefix, RemoveAt, ComposeStep, VerifyStep;
    match e {
      case Poll(svc, readings, status, _, _) =>
        if |readings| == |svc.images| { CheckSetsFlagForAutoStart(g.t, svc, readings, status); }
      case ComposeDone(i, error) => if i < |g.ops| { ComposeStepShape(g, i, error); }
      case VerifyDone(i, outcome) => if i < |g.ops| { VerifyStepShape(g, i, outcome); }
      case _ =>
    }
    assert forall r :: r in g.t.deploying ==> g.t.deploying + {r} == g.t.deploying;
  }

  /** The operations after a step: advanced by one phase, one more, or one less. */
  lemma StepOps(g: State, e: Event)
    ensures var ops' := Step(g, e).ops;
      match MoveOf(g, e)
      case Nothing => ops' == g.ops || exists i :: 0 <= i < |g.ops| && ops' == g.ops[i := g.ops[i].(phase := Verifying)]
      case Starts(r) => |ops'| == |g.ops| + 1 && ops' == g.ops + [ops'[|g.ops|]] && ops'[|g.ops|].service == r
      case Ends(r) => exists i :: 0 <= i < |g.ops| && g.ops[i].service == r && ops' == RemoveAt(g.ops, i)
  {
    hide Check, Block, Unblock, Cleanup, RemoveAt, PollError, ClearPollError, ClearDeploying;
    if WholePoll(e) { CheckSetsFlagForAutoStart(g.t, e.svc, e.readings, e.status); }
  }

  /** The operations after a step, event by event: what kind each started operation is and whether it was
      asked for by hand, and that operations keep their identity until they end. */
  lemma OperationsByEvent(g: State, e: Event)
    ensures var ops' := Step(g, e).ops;
      match e
      case Poll(svc, readings, status, manual, cancelled) =>
        if |readings| != |svc.images| then ops' == g.ops
        else
          (match Check(g.t, svc, readings, status).1
           case AutoStart(_, rep) => ops' == g.ops + [Op(svc.name, AutoStarted(rep), manual, Composing)]
           case Deploy(changed) =>
             if cancelled || svc.name in g.t.deploying then ops' == g.ops
             else ops' == g.ops + [Op(svc.name, Guarded(changed), manual, Composing)]
           case _ => ops' == g.ops)
      case DriftCheck(s, hash) =>
        if Get(g.t.composeHashes, s) != "" && Get(g.t.composeHashes, s) != hash
        then ops' == g.ops + [Op(s, Drifted, false, Composing)]
        else ops' == g.ops
      case ForceRedeploy(s) => ops' == g.ops + [Op(s, Forced, false, Composing)]
      case ComposeDone(i, error) =>
        if i >= |g.ops| || g.ops[i].phase != Composing then ops' == g.ops
        else if error.None? then ops' == g.ops[i := g.ops[i].(phase := Verifying)]
        else ops' == g.ops[..i] + g.ops[i + 1..]
      case VerifyDone(i, _) =>
        if i >= |g.ops| || g.ops[i].phase != Verifying then ops' == g.ops else ops' == g.ops[..i] + g.ops[i + 1..]
      case _ => ops' == g.ops
  {
    hide Check, Block, Unblock, Cleanup, PollError, ClearPollError, ClearDeploying;
    if WholePoll(e) { CheckSetsFlagForAutoStart(g.t, e.svc, e.readings, e.status); }
  }

  /** What a compose result does to the tables. */
  lemma ComposeStepShape(g: State, i: nat, error: Option<string>)
    requires i < |g.ops|
    ensures var t, s := ComposeStep(g, i, error).t, g.ops[i].service;
            && t == g.t.(deploying := t.deploying, errored := t.errored, sent := t.sent)
            && t.deploying == (if error.Some? then g.t.deploying - {s} else g.t.deploying)
            && (t.sent == g.t.sent || exists m :: t.sent == g.t.sent + [PollErrorAlert(s, m)])
  {
    hide RemoveAt, PollError, ClearPollError;
    var s := g.ops[i].service;
    ClearPollErrorShape(g.t, s);
    if error.Some? { PollErrorShape(ClearDeploying(g.t, s), s, error.value); }
  }

  /** What a verification result does to the tables. */
  lemma VerifyStepShape(g: State, i: nat, outcome: Outcome)
    requires i < |g.ops|
    ensures var t, op := VerifyStep(g, i, outcome).t, g.ops[i];
            && t == g.t.(deploying := g.t.deploying - {op.service}, blocked := t.blocked,
                 blockedGauge := t.blockedGauge)
            && ((op.kind.Guarded? && outcome.Failing?)
                || (t.blocked == g.t.blocked && t.blockedGauge == g.t.blockedGauge))
  {
    hide RemoveAt, BlockDigests;
  }

  /** Flags and in-flight counts change together, one service at a time. */
  lemma StepMoves(g: State, e: Event, s: string)
    ensures var g' := Step(g, e);
      match MoveOf(g, e)
      case Nothing => (s in g'.t.deploying <==> s in g.t.deploying) && InFlight(g'.ops, s) == InFlight(g.ops, s)
      case Starts(r) =>
        (s in g'.t.deploying <==> s in g.t.deploying || s == r)
        && InFlight(g'.ops, s) == InFlight(g.ops, s) + (if s == r then 1 else 0)
      case Ends(r) =>
        (s in g'.t.deploying <==> s in g.t.deploying && s != r)
        && InFlight(g'.ops, s) == InFlight(g.ops, s) - (if s == r then 1 else 0)
  {
    hide InFlight, Step, MoveOf;
    StepFlags(g, e);
    StepOps(g, e);
    var ops, ops' := g.ops, Step(g, e).ops;
    match MoveOf(g, e) {
      case Nothing =>
        if ops' != ops {
          var i :| 0 <= i < |ops| && ops' == ops[i := ops[i].(phase := Verifying)];
          InFlightUpdate(ops, i, ops[i].(phase := Verifying), s);
        }
      case Starts(r) =>
        InFlightAppend(ops, ops'[|ops|], s);
      case Ends(r) =>
        var i :| 0 <= i < |ops| && ops[i].service == r && ops' == RemoveAt(ops, i);
        InFlightWithout(ops, i, s);
    }
  }

  /** A set flag always has an operation in flight that will clear it, in every interleaving. */
  lemma {:induction false} FlagNeverLeaks(es: seq<Event>, s: string)
    ensures s in Run(es).t.deploying ==> InFlight(Run(es).ops, s) > 0
  {
    if es != [] {
      FlagNeverLeaks(es[..|es| - 1], s);
      StepMoves(Run(es[..|es| - 1]), es[|es| - 1], s);
      EndedWasInFlight(Run(es[..|es| - 1]), es[|es| - 1]);
    }
  }

  lemma EndedWasInFlight(g: State, e: Event)
    ensures var m := MoveOf(g, e); m.Ends? ==> InFlight(g.ops, m.service) > 0
  {
    if e.ComposeDone? || e.VerifyDone? {
      if e.op < |g.ops| { InFlightWithout(g.ops, e.op, g.ops[e.op].service); }
    }
  }

  /** When nothing is in flight, no flag is set. */
  lemma QuiescentMeansClear(es: seq<Event>)
    requires Run(es).ops == []
    ensures Run(es).t.deploying == {}
  {
    forall s | s in Run(es).t.deploying ensures false { FlagNeverLeaks(es, s); }
  }

  /** The flag tells the truth: set while exactly one operation is in flight, clear while none is. */
  ghost predicate FlagsExact(g: State) {
    forall s :: InFlight(g.ops, s) == if s in g.t.deploying then 1 else 0
  }

  /** A start that does not care whether the flag is already taken. */
  ghost predicate Overlaps(g: State, e: Event) {
    MoveOf(g, e).Starts? && MoveOf(g, e).service in g.t.deploying
  }

  /** Exactness survives a step unless, and only unless, an unguarded start meets a set flag. */
  lemma ExactUnlessOverlap(g: State, e: Event)
    requires FlagsExact(g)
    ensures FlagsExact(Step(g, e)) <==> !Overlaps(g, e)
  {
    hide Step, MoveOf, InFlight;
    if Overlaps(g, e) {
      StepMoves(g, e, MoveOf(g, e).service);
    } else {
      EndedWasInFlight(g, e);
      forall s ensures InFlight(Step(g, e).ops, s) == if s in Step(g, e).t.deploying then 1 else 0 {
        StepMoves(g, e, s);
      }
    }
  }

  ghost predicate ExactThroughout(es: seq<Event>) {
    forall k :: 0 <= k <= |es| ==> FlagsExact(Run(es[..k]))
  }

  ghost predicate NoOverlap(es: seq<Event>) {
    forall k :: 0 <= k < |es| ==> !Overlaps(Run(es[..k]), es[k])
  }

  /** Over a whole run the flags are exact at every point if and only if no unguarded start overlapped. */
  lemma {:induction false} ExactRuns(es: seq<Event>)
    ensures ExactThroughout(es) <==> NoOverlap(es)
  {
    hide Step, Overlaps, FlagsExact, ExactThroughout, NoOverlap;
    if es == [] {
      NothingYet();
    } else {
      var before, e := es[..|es| - 1], es[|es| - 1];
      ExactRuns(before);
      ExactSplits(es);
      OverlapSplits(es);
      if ExactThroughout(before) {
        ExactAtEnd(before);
        ExactUnlessOverlap(Run(before), e);
      }
    }
  }

  lemma ExactAtEnd(es: seq<Event>)
    requires ExactThroughout(es)
    ensures FlagsExact(Run(es))
  {
    assert es[..|es|] == es;
  }

  lemma ExactSplits(es: seq<Event>)
    requires es != []
    ensures ExactThroughout(es) <==> ExactThroughout(es[..|es| - 1]) && FlagsExact(Run(es))
  {
    hide Run, FlagsExact;
    ThroughoutSplits(es[..|es| - 1], es, (x: seq<Event>) => FlagsExact(Run(x)));
  }

  lemma OverlapSplits(es: seq<Event>)
    requires es != []
    ensures NoOverlap(es) <==> NoOverlap(es[..|es| - 1]) && !Overlaps(Run(es[..|es| - 1]), es[|es| - 1])
  {
    hide Run, Overlaps;
    StepsSplit(es[..|es| - 1], es, (x: seq<Event>, e: Event) => !Overlaps(Run(x), e));
  }

  lemma NothingYet()
    ensures ExactThroughout([]) && NoOverlap([])
  {
    InitIsExact();
  }

  lemma InitIsExact()
    ensures FlagsExact(INIT)
  {}

  /** The flag covers the service: it is set exactly while some operation is in flight. */
  ghost predicate Covered(g: State, s: string) {
    InFlight(g.ops, s) > 0 <==> s in g.t.deploying
  }

  /** An operation of the service ends while another one is in flight, taking the flag with it. */
  ghost predicate Uncovers(g: State, e: Event, s: string) {
    MoveOf(g, e) == Ends(s) && InFlight(g.ops, s) > 1
  }

  /** A covered service stays covered unless, and only unless, one of several operations ends. */
  lemma StepKeepsCovered(g: State, e: Event, s: string)
    requires Covered(g, s)
    ensures Covered(Step(g, e), s) <==> !Uncovers(g, e, s)
  {
    hide Step, MoveOf, InFlight;
    StepMoves(g, e, s);
    EndedWasInFlight(g, e);
  }

  ghost predicate CoveredThroughout(es: seq<Event>, s: string) {
    forall k :: 0 <= k <= |es| ==> Covered(Run(es[..k]), s)
  }

  ghost predicate NeverUncovers(es: seq<Event>, s: string) {
    forall k :: 0 <= k < |es| ==> !Uncovers(Run(es[..k]), es[k], s)
  }

  /** Over a whole run the flag is set at every point exactly while an operation of the service is in
      flight, if and only if no operation of it ended while another was in flight. */
  lemma {:induction false} CoveredExactly(es: seq<Event>, s: string)
    ensures CoveredThroughout(es, s) <==> NeverUncovers(es, s)
  {
    hide Step, Run, Covered, Uncovers, CoveredThroughout, NeverUncovers;
    if es == [] {
      CoveredFromStart(s);
    } else {
      var before, e := es[..|es| - 1], es[|es| - 1];
      CoveredExactly(before, s);
      CoveredSplits(es, s);
      UncoversSplits(es, s);
      RunStep(es, |es| - 1);
      assert es[..|es| - 1 + 1] == es;
      if CoveredThroughout(before, s) {
        CoveredAt(before, |before|, s);
        StepKeepsCovered(Run(before), e, s);
      }
    }
  }

  lemma CoveredFromStart(s: string)
    ensures CoveredThroughout([], s) && NeverUncovers([], s)
  {}

  lemma CoveredAt(es: seq<Event>, k: nat, s: string)
    requires CoveredThroughout(es, s) && k <= |es|
    ensures Covered(Run(es[..k]), s) && (k == |es| ==> Covered(Run(es), s))
  {
    assert es[..|es|] == es;
  }

  lemma CoveredSplits(es: seq<Event>, s: string)
    requires es != []
    ensures CoveredThroughout(es, s) <==> CoveredThroughout(es[..|es| - 1], s) && Covered(Run(es), s)
  {
    hide Run, Covered;
    ThroughoutSplits(es[..|es| - 1], es, (x: seq<Event>) => Covered(Run(x), s));
  }

  lemma UncoversSplits(es: seq<Event>, s: string)
    requires es != []
    ensures NeverUncovers(es, s) <==>
              NeverUncovers(es[..|es| - 1], s) && !Uncovers(Run(es[..|es| - 1]), es[|es| - 1], s)
  {
    hide Run, Uncovers;
    StepsSplit(es[..|es| - 1], es, (x: seq<Event>, e: Event) => !Uncovers(Run(x), e, s));
  }

  /** Without overlapping starts nothing is ever uncovered. */
  lemma ExactIsCovered(es: seq<Event>, s: string)
    requires NoOverlap(es)
    ensures NeverUncovers(es, s)
  {
    hide Run, InFlight, MoveOf;
    ExactRuns(es);
    forall k | 0 <= k < |es| ensures !Uncovers(Run(es[..k]), es[k], s) {
      assert FlagsExact(Run(es[..k]));
    }
  }

  /** The guarded path never overlaps: only auto-start, drift and forced redeploys can. */
  lemma GuardedNeverOverlaps(g: State, e: Event)
    requires Overlaps(g, e)
    ensures e.DriftCheck? || e.ForceRedeploy?
         || (WholePoll(e) && Check(g.t, e.svc, e.readings, e.status).1.AutoStart?)
  {}

  /** Two overlapping operations: the first to end clears the flag while the other is still deploying. */
  lemma OverlapUncoversDeploy(s: string, image: string, d1: Digest, d2: Digest)
    requires d1 != "" && d1 != d2
    ensures var poll := Poll(Service(s, [image], false), [Reading(d2, d1)], Running, false, false);
            var es := [poll, ForceRedeploy(s), ComposeDone(1, Some("compose failed"))];
            Run(es).ops == [Op(s, Guarded([ImageChange(image, d1, d2, "")]), false, Composing)] &&
                Run(es).t.deploying == {}
  {
    var svc := Service(s, [image], false);
    var poll := Poll(svc, [Reading(d2, d1)], Running, false, false);
    var es := [poll, ForceRedeploy(s), ComposeDone(1, Some("compose failed"))];
    assert CheckImages(EMPTY_TABLES, s, [image][..0], [Reading(d2, d1)][..0]) == Scan(EMPTY_TABLES, [], "", None);
    assert CheckImages(EMPTY_TABLES, s, svc.images, poll.readings).changed == [ImageChange(image, d1, d2, "")];
    assert es[..1] == [poll] && es[..1][..0] == [] && es[..2][..1] == es[..1] && es[..3] == es &&
        es[..3][..2] == es[..2];
    assert Run(es[..1]) == Step(INIT, poll);
    assert Run(es[..2]) == Step(Run(es[..1]), ForceRedeploy(s));
    assert Run(es) == Step(Run(es[..2]), es[2]);
  }
}
