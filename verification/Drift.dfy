/** Compose drift over whole runs: a redeploy is asked for exactly when the files differ from what the
    last drift check saw. */
module Drift {
  import opened Common
  import opened Updater
  import opened Checks
  import opened Protocol
  import opened Alerts

  /** The hash the last drift check of the service saw, unless the cleanup forgot the service since. */
  function LastHash(es: seq<Event>, s: string): string {
    if es == [] then ""
    else
      match es[|es| - 1]
      case DriftCheck(r, hash) => if r == s then hash else LastHash(es[..|es| - 1], s)
      case CleanupTick(current) => if s in current then LastHash(es[..|es| - 1], s) else ""
      case _ => LastHash(es[..|es| - 1], s)
  }

  lemma PollKeepsHashes(g: State, e: Event)
    requires WholePoll(e)
    ensures Step(g, e).t.composeHashes == g.t.composeHashes
  {
    hide Step, CheckImages, PollError, ClearPollError, Suppressed, Times;
    var sc, s := ScanOf(g.t, e), e.svc.name;
    AfterPollIsStep(g, e);
    CheckTouchesOnlyItsTables(g.t, s, e.svc.images, e.readings);
    ClearPollErrorShape(sc.t, s);
    ClearPollErrorShape(sc.t.(startAttempted := sc.t.startAttempted - {s}), s);
    PollErrorShape(ClearPollError(sc.t, s), s, "context canceled");
    if sc.failure.Some? { PollErrorShape(sc.t, s, sc.failure.value); }
  }

  lemma StepHashes(g: State, e: Event, s: string)
    ensures Get(Step(g, e).t.composeHashes, s) ==
            match e
            case DriftCheck(r, hash) => if r == s then hash else Get(g.t.composeHashes, s)
            case CleanupTick(current) => if s in current then Get(g.t.composeHashes, s) else ""
            case _ => Get(g.t.composeHashes, s)
  {
    hide Check, Without, ComposeStep, VerifyStep;
    match e {
      case Poll(_, _, _, _, _) => if WholePoll(e) { PollKeepsHashes(g, e); }
      case ComposeDone(i, error) => if i < |g.ops| { ComposeStepShape(g, i, error); }
      case VerifyDone(i, outcome) => if i < |g.ops| { VerifyStepShape(g, i, outcome); }
      case _ =>
    }
  }

  lemma {:induction false} HashIsLastSeen(es: seq<Event>, s: string)
    ensures Get(Run(es).t.composeHashes, s) == LastHash(es, s)
  {
    hide Step, Get;
    if es != [] {
      HashIsLastSeen(es[..|es| - 1], s);
      StepHashes(Run(es[..|es| - 1]), es[|es| - 1], s);
    } else {
      assert Get(INIT.t.composeHashes, s) == "" by { NothingSeen(s); }
    }
  }

  lemma NothingSeen(s: string)
    ensures Get(INIT.t.composeHashes, s) == ""
  {}

  /** In any run a drift check starts a redeploy if and only if an earlier one saw another content. */
  lemma DriftRedeploysExactly(es: seq<Event>, s: string, hash: string)
    ensures MoveOf(Run(es), DriftCheck(s, hash)) ==
              if LastHash(es, s) != "" && LastHash(es, s) != hash then Starts(s) else Nothing
  {
    hide Run, LastHash;
    HashIsLastSeen(es, s);
  }
}
