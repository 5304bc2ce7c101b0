/** Graceful shutdown: operations are drained or timed out, then every manager is shut down. */
module Coordinator {
  import opened Common

  /** Before Shutdown; waiting for operations; waiting for managers; over. */
  datatype Phase = Open | Draining | Stopping | Done

  /** `started` logs the managers, by registration index, whose Shutdown was invoked. */
  datatype State = State(
    managers: seq<string>,
    active: nat,
    isShuttingDown: bool,
    phase: Phase,
    timedOut: bool,
    started: seq<nat>,
    running: set<nat>,
    errors: seq<string>,
    result: Option<bool>)

  const INIT := State([], 0, false, Open, false, [], {}, [], None)

  datatype Event =
    | Register(manager: string)
    | OperationStarts
    | OperationEnds
    | ShutdownCalled
    | Drained
    | TimedOut
    | ManagerReturns(index: nat, error: Option<string>)
    | Collect

  function Indices(n: nat): seq<nat> { seq(n, i => i) }

  function IndexSet(n: nat): set<nat> { if n == 0 then {} else IndexSet(n - 1) + {n - 1} }

  function Launch(s: State, timedOut: bool): State {
    s.(phase := Stopping, timedOut := timedOut, started := s.started + Indices(|s.managers|),
       running := IndexSet(|s.managers|))
  }

  /** Events that are not enabled are ignored. */
  function Step(s: State, e: Event): State {
    match e
    case Register(m) => s.(managers := s.managers + [m])
    case OperationStarts => if s.isShuttingDown then s else s.(active := s.active + 1)
    case OperationEnds => if s.active > 0 then s.(active := s.active - 1) else s
    case ShutdownCalled => if s.phase.Open? then s.(phase := Draining, isShuttingDown := true) else s
    case Drained => if s.phase.Draining? && s.active == 0 then Launch(s, false) else s
    case TimedOut => if s.phase.Draining? then Launch(s, true) else s
    case ManagerReturns(i, error) =>
      if i in s.running then
        s.(running := s.running - {i}, errors := if error.Some? then s.errors + [error.value] else s.errors)
      else s
    case Collect =>
      if s.phase.Stopping? && s.running == {} then s.(phase := Done, result := Some(s.errors != [])) else s
  }

  class Coordinator {
    var managers: seq<string>
    var active: nat
    var isShuttingDown: bool
    var phase: Phase
    var timedOut: bool
    var started: seq<nat>
    var running: set<nat>
    var errors: seq<string>
    var result: Option<bool>

    ghost function View(): State
      reads this
    {
      State(managers, active, isShuttingDown, phase, timedOut, started, running, errors, result)
    }

    constructor ()
      ensures View() == INIT
    {
      managers, active, isShuttingDown, phase := [], 0, false, Open;
      timedOut, started, running, errors, result := false, [], {}, [], None;
    }

    method RegisterManager(m: string)
      modifies this
      ensures View() == Step(old(View()), Register(m))
    {
      managers := managers + [m];
    }

    method OperationStarted() returns (admitted: bool)
      modifies this
      ensures View() == Step(old(View()), OperationStarts) && admitted == !old(isShuttingDown)
    {
      if isShuttingDown { return false; }
      active := active + 1;
      return true;
    }

    /** The wait group panics when no operation is active. */
    method OperationCompleted()
      requires active > 0
      modifies this
      ensures View() == Step(old(View()), OperationEnds)
    {
      active := active - 1;
    }

    /** The once guard: only the first call goes on to run the shutdown. */
    method BeginShutdown() returns (runs: bool)
      modifies this
      ensures View() == Step(old(View()), ShutdownCalled) && runs == old(phase).Open?
    {
      if phase != Open { return false; }
      phase, isShuttingDown := Draining, true;
      return true;
    }

    /** Start every registered manager, once the operations are done or the timeout has fired. */
    method LaunchManagers(timeout: bool)
      requires phase.Draining? && (timeout || active == 0)
      modifies this
      ensures View() == Step(old(View()), if timeout then TimedOut else Drained)
    {
      phase, timedOut := Stopping, timeout;
      running := {};
      var i := 0;
      while i < |managers|
        invariant 0 <= i <= |managers|
        invariant View() == old(View()).(phase := Stopping, timedOut := timeout, started := started, running := running)
        invariant started == old(started) + Indices(i)
        invariant running == IndexSet(i)
      {
        started := started + [i];
        running := running + {i};
        assert Indices(i) + [i] == Indices(i + 1);
        i := i + 1;
      }
    }

    method ManagerReturned(index: nat, error: Option<string>)
      requires index in running
      modifies this
      ensures View() == Step(old(View()), ManagerReturns(index, error))
    {
      running := running - {index};
      if error.Some? { errors := errors + [error.value]; }
    }

    method CollectErrors() returns (failed: bool)
      requires phase.Stopping? && running == {}
      modifies this
      ensures View() == Step(old(View()), Collect) && failed == (old(errors) != [])
    {
      failed := |errors| > 0;
      phase, result := Done, Some(failed);
    }
  }

  // ---- runs ----

  function Run(es: seq<Event>): State {
    if es == [] then INIT else Step(Run(es[..|es| - 1]), es[|es| - 1])
  }

  lemma RunStep(es: seq<Event>, k: nat)
    requires k < |es|
    ensures Run(es[..k + 1]) == Step(Run(es[..k]), es[k])
  {
    assert es[..k + 1][..k] == es[..k];
  }

  /** No operation is admitted once shutdown has begun: the active count only falls. */
  lemma {:induction false} NoAdmissionAfterShutdown(es: seq<Event>, k: nat, m: nat)
    requires k <= m <= |es| && Run(es[..k]).isShuttingDown
    ensures Run(es[..m]).isShuttingDown && Run(es[..m]).active <= Run(es[..k]).active
    decreases m
  {
    hide Step;
    if k < m {
      NoAdmissionAfterShutdown(es, k, m - 1);
      RunStep(es, m - 1);
      NoAdmissionStep(Run(es[..m - 1]), es[m - 1]);
    }
  }

  lemma NoAdmissionStep(s: State, e: Event)
    requires s.isShuttingDown
    ensures Step(s, e).isShuttingDown && Step(s, e).active <= s.active
  {
    hide Indices, IndexSet;
  }

  /** Operations let in, and operations reported complete, during a run. */
  function Admitted(es: seq<Event>): nat {
    if es == [] then 0
    else
      var n := |es| - 1;
      Admitted(es[..n]) + if es[n].OperationStarts? && !Run(es[..n]).isShuttingDown then 1 else 0
  }

  function Completed(es: seq<Event>): nat {
    if es == [] then 0
    else
      var n := |es| - 1;
      Completed(es[..n]) + if es[n].OperationEnds? && Run(es[..n]).active > 0 then 1 else 0
  }

  lemma ActiveStep(s: State, e: Event)
    ensures Step(s, e).active + (if e.OperationEnds? && s.active > 0 then 1 else 0)
         == s.active + if e.OperationStarts? && !s.isShuttingDown then 1 else 0
  {
    hide Indices, IndexSet;
  }

  /** What drains is exactly what was let in and has not completed. */
  lemma {:induction false} ActiveIsConserved(es: seq<Event>)
    ensures Run(es).active + Completed(es) == Admitted(es)
  {
    hide Step;
    if es != [] {
      ActiveIsConserved(es[..|es| - 1]);
      ActiveStep(Run(es[..|es| - 1]), es[|es| - 1]);
    }
  }

  ghost predicate Launched(s: State) { s.phase.Stopping? || s.phase.Done? }

  ghost predicate Consistent(s: State) {
    && (s.isShuttingDown <==> !s.phase.Open?)
    && (Launched(s) ==> s.timedOut || s.active == 0)
    && (Launched(s) ==> |s.started| <= |s.managers| && s.started == Indices(|s.started|))
    && (!Launched(s) ==> s.started == [] && s.running == {} && s.errors == [] && s.result.None?)
    && (s.result == if s.phase.Done? then Some(s.errors != []) else None)
    && (s.phase.Done? ==> s.running == {})
  }

  lemma StepKeepsConsistent(s: State, e: Event)
    requires Consistent(s)
    ensures Consistent(Step(s, e))
  {
    if e.Drained? || e.TimedOut? { assert [] + Indices(|s.managers|) == Indices(|s.managers|); }
  }

  lemma {:induction false} RunsAreConsistent(es: seq<Event>)
    ensures Consistent(Run(es))
  {
    if es != [] {
      RunsAreConsistent(es[..|es| - 1]);
      StepKeepsConsistent(Run(es[..|es| - 1]), es[|es| - 1]);
    }
  }

  /** Managers are shut down only after the operations have drained or the timeout has fired. */
  lemma DrainedOrTimedOut(es: seq<Event>)
    requires Run(es).started != []
    ensures Run(es).active == 0 || Run(es).timedOut
  {
    RunsAreConsistent(es);
  }

  lemma LaunchHappensOnce(s: State, e: Event)
    requires Consistent(s)
    ensures var s' := Step(s, e);
            && |s.managers| <= |s'.managers|
            && (Launched(s) ==> Launched(s') && s'.started == s.started)
            && (!Launched(s) && Launched(s') ==> s'.started == Indices(|s.managers|) && s'.managers == s.managers)
  {
    assert [] + Indices(|s.managers|) == Indices(|s.managers|);
  }

  /** Registered before the launch: shut down exactly once, whatever and however often is called after. */
  lemma {:induction false} ManagersStopOnce(es: seq<Event>, k: nat, i: nat)
    requires k <= |es| && i < |Run(es[..k]).managers| && !Launched(Run(es[..k]))
    ensures multiset(Run(es).started)[i] == if Launched(Run(es)) then 1 else 0
    ensures i < |Run(es).managers|
  {
    hide Step, Indices, Launched;
    StartedCovers(es, k, i);
    RunsAreConsistent(es);
    if Launched(Run(es)) { OncePerIndex(|Run(es).started|, i); }
  }

  lemma {:induction false} StartedCovers(es: seq<Event>, k: nat, i: nat)
    requires k <= |es| && i < |Run(es[..k]).managers| && !Launched(Run(es[..k]))
    ensures i < |Run(es).managers| && (Launched(Run(es)) ==> i < |Run(es).started|)
    decreases |es|
  {
    hide Step, Consistent;
    if k == |es| {
      assert es[..k] == es;
    } else {
      var n := |es| - 1;
      assert es[..n][..k] == es[..k];
      StartedCovers(es[..n], k, i);
      RunsAreConsistent(es[..n]);
      LaunchHappensOnce(Run(es[..n]), es[n]);
    }
  }

  lemma {:induction false} OncePerIndex(n: nat, i: nat)
    ensures multiset(Indices(n))[i] == if i < n then 1 else 0
  {
    if n > 0 {
      assert Indices(n) == Indices(n - 1) + [n - 1];
      OncePerIndex(n - 1, i);
    }
  }

  lemma LaunchedIsIndexed(s: State)
    requires Consistent(s) && Launched(s)
    ensures |s.started| <= |s.managers| && s.started == Indices(|s.started|)
  {}

  /** Managers registered after the launch are never shut down. */
  lemma {:induction false} LateManagersAreIgnored(es: seq<Event>, k: nat, i: nat)
    requires k <= |es| && Launched(Run(es[..k])) && i >= |Run(es[..k]).managers|
    ensures multiset(Run(es).started)[i] == 0 && Run(es).started == Run(es[..k]).started && Launched(Run(es))
    decreases |es|
  {
    hide Step, Indices, Launched;
    if k == |es| {
      assert es[..k] == es;
      RunsAreConsistent(es);
      LaunchedIsIndexed(Run(es));
      OncePerIndex(|Run(es).started|, i);
    } else {
      var n := |es| - 1;
      assert es[..n][..k] == es[..k];
      LateManagersAreIgnored(es[..n], k, i);
      RunsAreConsistent(es[..n]);
      LaunchHappensOnce(Run(es[..n]), es[n]);
    }
  }

  /** Some manager that was running returned an error. */
  ghost predicate SomeFailed(es: seq<Event>) {
    exists k :: 0 <= k < |es| && FailsAt(Run(es[..k]), es[k])
  }

  ghost predicate FailsAt(s: State, e: Event) {
    e.ManagerReturns? && e.index in s.running && e.error.Some?
  }

  lemma {:induction false} ErrorsAreFailures(es: seq<Event>)
    ensures Run(es).errors != [] <==> SomeFailed(es)
  {
    hide Step, FailsAt, SomeFailed;
    if es == [] {
      assert !SomeFailed(es) by { NothingFailed(); }
    } else {
      var n := |es| - 1;
      ErrorsAreFailures(es[..n]);
      FailuresSplit(es);
      ErrorsGrow(Run(es[..n]), es[n]);
    }
  }

  lemma NothingFailed()
    ensures !SomeFailed([])
  {}

  lemma FailuresSplit(es: seq<Event>)
    requires es != []
    ensures SomeFailed(es) <==> SomeFailed(es[..|es| - 1]) || FailsAt(Run(es[..|es| - 1]), es[|es| - 1])
  {
    hide Run, FailsAt;
    StepsSplit(es[..|es| - 1], es, (x: seq<Event>, e: Event) => !FailsAt(Run(x), e));
  }

  lemma ErrorsGrow(s: State, e: Event)
    ensures Step(s, e).errors != [] <==> s.errors != [] || FailsAt(s, e)
  {}

  /** The call that runs the shutdown reports an error if and only if some manager failed. */
  lemma ResultIsExact(es: seq<Event>)
    requires Run(es).phase.Done?
    ensures Run(es).result == Some(SomeFailed(es))
  {
    RunsAreConsistent(es);
    ErrorsAreFailures(es);
  }

  // ---- registration and progress ----

  /** The managers registered in a run, in order. */
  function Registered(es: seq<Event>): seq<string> {
    if es == [] then []
    else
      var n := |es| - 1;
      Registered(es[..n]) + if es[n].Register? then [es[n].manager] else []
  }

  /** Every registered manager is on the list, in order, whatever happens around it. */
  lemma {:induction false} RegisteredAreListed(es: seq<Event>)
    ensures Run(es).managers == Registered(es)
  {
    hide Step;
    if es != [] {
      RegisteredAreListed(es[..|es| - 1]);
      StepLists(Run(es[..|es| - 1]), es[|es| - 1]);
      assert Registered(es[..|es| - 1]) + [] == Registered(es[..|es| - 1]);
    }
  }

  lemma StepLists(s: State, e: Event)
    ensures Step(s, e).managers == if e.Register? then s.managers + [e.manager] else s.managers
  {
    hide Indices, IndexSet;
  }

  /** Shutdown is in progress exactly once it has been called. */
  lemma {:induction false} ShuttingDownExactly(es: seq<Event>)
    ensures Run(es).isShuttingDown <==> ShutdownCalled in es
  {
    hide Indices, IndexSet;
    if es != [] {
      var n := |es| - 1;
      ShuttingDownExactly(es[..n]);
      RunsAreConsistent(es[..n]);
      assert es == es[..n] + [es[n]];
    }
  }

  /** A called shutdown goes on: at the timeout, or at once when nothing is active, every registered manager is
      started; and when the last one has returned the call ends. */
  lemma ShutdownGoesOn(es: seq<Event>)
    requires Run(es).phase.Draining?
    ensures Run(es + [TimedOut]).started == Indices(|Registered(es)|)
    ensures Run(es).active == 0 ==> Run(es + [Drained]).started == Indices(|Registered(es)|)
    ensures Run(es).active > 0 ==> Run(es + [Drained]) == Run(es)
  {
    hide Indices;
    RegisteredAreListed(es);
    RunsAreConsistent(es);
    assert (es + [TimedOut])[..|es|] == es && (es + [Drained])[..|es|] == es;
    assert [] + Indices(|Registered(es)|) == Indices(|Registered(es)|);
  }

  /** The call ends exactly when no manager is running any more. */
  lemma CallEndsExactly(es: seq<Event>)
    requires Run(es).phase.Stopping?
    ensures Run(es + [Collect]).phase.Done? <==> Run(es).running == {}
  {
    assert (es + [Collect])[..|es|] == es;
  }

  /** Running are the managers started that have not returned yet. */
  lemma {:induction false} RunningExactly(es: seq<Event>, i: nat)
    ensures i in Run(es).running <==> Pending(es, i)
  {
    hide Step;
    if es != [] {
      RunningExactly(es[..|es| - 1], i);
      RunsAreConsistent(es[..|es| - 1]);
      StepRunning(Run(es[..|es| - 1]), es[|es| - 1], i);
    }
  }

  /** Started, and no return since. */
  ghost predicate Pending(es: seq<Event>, i: nat) {
    es != [] &&
    var n := |es| - 1;
    if !Launched(Run(es[..n])) then Launched(Run(es)) && i < |Run(es).managers|
    else Pending(es[..n], i) && !(es[n].ManagerReturns? && es[n].index == i)
  }

  lemma StepRunning(s: State, e: Event, i: nat)
    requires Consistent(s)
    ensures var s' := Step(s, e);
            i in s'.running <==>
              if !Launched(s) then Launched(s') && i < |s'.managers|
              else i in s.running && !(e.ManagerReturns? && e.index == i)
  {
    hide Indices;
    IndexSetIs(|s.managers|, i);
  }

  lemma {:induction false} IndexSetIs(n: nat, i: nat)
    ensures i in IndexSet(n) <==> i < n
  {
    if n > 0 { IndexSetIs(n - 1, i); }
  }
}
