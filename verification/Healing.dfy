/** What the healer guarantees over whole runs: every recovery alert is paid for, restarts are
    budgeted per service and spaced per container, and every restart is verified once. */
module Healing {
  import opened Common
  import opened Healer

  /** A restart command goes out: no deploy, healing on, budget left, not cooling down. */
  ghost predicate MayRestart(t: Tables, svc: Settings, c: string, deploying: bool, now: int) {
    !deploying && svc.autoHeal && Count(t.restartCounts, svc.service) < svc.maxRestarts && !InCooldown(t, c, now)
  }

  /** An unhealthy event, table by table. */
  lemma UnhealthyEffect(t: Tables, svc: Settings, c: string, deploying: bool, now: int, restart: Restart)
    ensures var (t', attempt) := OnUnhealthy(t, svc, c, deploying, now, restart);
            var restarts := MayRestart(t, svc, c, deploying, now) && restart.RestartOk?;
            && (attempt == if restarts then Issued(Task(svc, c))
                           else if MayRestart(t, svc, c, deploying, now) then IssuedInVain
                           else NotIssued)
            && t'.degraded == (if deploying then t.degraded else t.degraded + {svc.service})
            && t'.restartCounts == t.restartCounts
            && t'.exhausted == (if !deploying && svc.autoHeal && Count(t.restartCounts, svc.service) >= svc.maxRestarts
                                then t.exhausted + {svc.service} else t.exhausted)
            && t'.cooldowns == (if restarts then t.cooldowns[c := restart.at + svc.cooldown] else t.cooldowns)
  {}

  /** An unhealthy event sends at most one alert: "unhealthy" exactly when healing is off, "critical"
      exactly when the restart command failed. */
  lemma UnhealthyAlerts(t: Tables, svc: Settings, c: string, deploying: bool, now: int, restart: Restart)
    ensures var (t', attempt) := OnUnhealthy(t, svc, c, deploying, now, restart);
            t'.sent == t.sent + if attempt.IssuedInVain? then [CriticalAlert]
                                else if !deploying && !svc.autoHeal then [UnhealthyAlert] else []
  {
    hide InCooldown, Count;
    assert t.sent + [] == t.sent;
  }

  // ---- the other handlers, event by event ----

  /** A start recovers a degraded service exactly when the container could be inspected and has no healthcheck. */
  lemma StartedExactly(h: State, svc: Settings, seen: StartSeen)
    ensures var h' := Step(h, Started(svc, seen));
            if svc.service in h.t.degraded && seen == NoHealthcheck then
              && h'.t.degraded == h.t.degraded - {svc.service}
              && h'.t.restartCounts == h.t.restartCounts - {svc.service}
              && h'.t.exhausted == h.t.exhausted - {svc.service}
              && h'.t.sent == h.t.sent + [RecoveredAlert]
              && h'.t.cooldowns == h.t.cooldowns && h'.pending == h.pending
            else h' == h
  {}

  /** A death is news outside start-up and deploys, and only for a service that is not degraded already. */
  lemma DiedExactly(h: State, svc: Settings, startingUp: bool, deploying: bool)
    ensures var h' := Step(h, Died(svc, startingUp, deploying));
            if !startingUp && !deploying && svc.service !in h.t.degraded then
              && h'.t.degraded == h.t.degraded + {svc.service}
              && h'.t.sent == h.t.sent + [DiedAlert]
              && h'.t.restartCounts == h.t.restartCounts && h'.t.exhausted == h.t.exhausted
              && h'.t.cooldowns == h.t.cooldowns && h'.pending == h.pending
            else h' == h
  {}

  /** A healthy event ends the container's cooldown and the service's degradation, deploy or not; it alerts
      outside a deploy if there was either. */
  lemma HealthyExactly(h: State, svc: Settings, c: string, deploying: bool)
    ensures var h', s := Step(h, Healthy(svc, c, deploying)), svc.service;
            && h'.t.degraded == h.t.degraded - {s} && h'.t.cooldowns == h.t.cooldowns - {c} && h'.pending == h.pending
            && h'.t.restartCounts == (if s in h.t.degraded then h.t.restartCounts - {s} else h.t.restartCounts)
            && h'.t.exhausted == (if s in h.t.degraded then h.t.exhausted - {s} else h.t.exhausted)
            && h'.t.sent == if deploying || (c !in h.t.cooldowns && s !in h.t.degraded) then h.t.sent
                            else h.t.sent + [HealthyAlert]
  {}

  /** A verification that runs counts a failure, or recovers a service that is still degraded. */
  lemma VerifiedExactly(h: State, task: Task, f: Finding)
    ensures var h', s := Step(h, Verified(task, f)), task.svc.service;
            if task !in h.pending then h' == h
            else
              && h'.pending == h.pending - multiset{task} && h'.t.cooldowns == h.t.cooldowns
              && (if f == StillUnhealthy then
                    && h'.t.restartCounts == h.t.restartCounts[s := Count(h.t.restartCounts, s) + 1]
                    && h'.t.sent == h.t.sent + [CriticalAlert]
                    && h'.t.degraded == h.t.degraded && h'.t.exhausted == h.t.exhausted
                  else if f == Fine && s in h.t.degraded then
                    && h'.t.degraded == h.t.degraded - {s} && h'.t.restartCounts == h.t.restartCounts - {s}
                    && h'.t.exhausted == h.t.exhausted - {s} && h'.t.sent == h.t.sent + [RestartedAlert]
                  else h'.t == h.t)
  {}

  /** When a service recovers, for all five events: a verification that finds its container fine, a healthy
      event, or the start of a container without healthcheck, while it is degraded. */
  lemma RecoversExactly(h: State, e: Event, s: string)
    ensures s in h.t.degraded && s !in Step(h, e).t.degraded <==>
              && s in h.t.degraded
              && match e
                 case Unhealthy(_, _, _, _, _) => false
                 case Verified(task, f) => task in h.pending && f == Fine && task.svc.service == s
                 case Healthy(svc, _, _) => svc.service == s
                 case Died(_, _, _) => false
                 case Started(svc, seen) => seen == NoHealthcheck && svc.service == s
  {
    hide OnUnhealthy, OnVerified, OnHealthy, OnDied, OnStarted;
    match e {
      case Unhealthy(svc, c, deploying, now, restart) => UnhealthyEffect(h.t, svc, c, deploying, now, restart);
      case Verified(task, f) => VerifiedExactly(h, task, f);
      case Healthy(svc, c, deploying) => HealthyExactly(h, svc, c, deploying);
      case Died(svc, startingUp, deploying) => DiedExactly(h, svc, startingUp, deploying);
      case Started(svc, seen) => StartedExactly(h, svc, seen);
    }
  }

  /** When a service becomes degraded: an unhealthy event outside a deploy, or a death outside start-up and
      deploys, while it is not degraded. */
  lemma BecomesDegradedExactly(h: State, e: Event, s: string)
    ensures s !in h.t.degraded && s in Step(h, e).t.degraded <==>
              && s !in h.t.degraded
              && match e
                 case Unhealthy(svc, _, deploying, _, _) => !deploying && svc.service == s
                 case Died(svc, startingUp, deploying) => !startingUp && !deploying && svc.service == s
                 case _ => false
  {
    hide OnUnhealthy, OnVerified, OnHealthy, OnDied, OnStarted;
    match e {
      case Unhealthy(svc, c, deploying, now, restart) => UnhealthyEffect(h.t, svc, c, deploying, now, restart);
      case Verified(task, f) => VerifiedExactly(h, task, f);
      case Healthy(svc, c, deploying) => HealthyExactly(h, svc, c, deploying);
      case Died(svc, startingUp, deploying) => DiedExactly(h, svc, startingUp, deploying);
      case Started(svc, seen) => StartedExactly(h, svc, seen);
    }
  }

  // ---- recovery alerts ----

  predicate IsRecovery(a: Alert) { a.RestartedAlert? || a.HealthyAlert? || a.RecoveredAlert? }

  function Recoveries(sent: seq<Alert>): nat {
    if sent == [] then 0
    else Recoveries(sent[..|sent| - 1]) + if IsRecovery(sent[|sent| - 1]) then 1 else 0
  }

  /** A service turns from healthy to degraded. */
  ghost function Degrades(h: State, e: Event): nat {
    if (e.Unhealthy? || e.Died?) && Raised(h.t, Step(h, e).t, e.svc.service) then 1 else 0
  }

  function Restarts(h: State, e: Event): nat {
    if AttemptOf(h, e).Issued? then 1 else 0
  }

  ghost function TotalDegradations(es: seq<Event>): nat {
    if es == [] then 0 else TotalDegradations(es[..|es| - 1]) + Degrades(Run(es[..|es| - 1]), es[|es| - 1])
  }

  function TotalRestarts(es: seq<Event>): nat {
    if es == [] then 0 else TotalRestarts(es[..|es| - 1]) + Restarts(Run(es[..|es| - 1]), es[|es| - 1])
  }

  /** Alerts already sent plus those the healer still owes an occasion for. */
  ghost function Potential(t: Tables): nat {
    Recoveries(t.sent) + |t.degraded| + |t.cooldowns|
  }

  lemma RecoveriesAppend(sent: seq<Alert>, a: Alert)
    ensures Recoveries(sent + [a]) == Recoveries(sent) + if IsRecovery(a) then 1 else 0
  {
    assert (sent + [a])[..|sent|] == sent;
  }

  lemma MapSizes(m: map<string, int>, k: string, v: int)
    ensures |m[k := v]| == |m| + if k in m then 0 else 1
    ensures |m - {k}| == |m| - if k in m then 1 else 0
  {
    assert m[k := v].Keys == m.Keys + {k};
    assert (m - {k}).Keys == m.Keys - {k};
  }

  ghost predicate Raised(t: Tables, t': Tables, s: string) { s !in t.degraded && s in t'.degraded }

  lemma ClearPays(t: Tables, s: string, a: Alert)
    requires s in t.degraded
    ensures Potential(Send(ClearService(t, s), a)) <= Potential(t)
  {
    RecoveriesAppend(t.sent, a);
  }

  lemma DegradePays(t: Tables, s: string)
    ensures var t' := t.(degraded := t.degraded + {s});
            Potential(t') == Potential(t) + if Raised(t, t', s) then 1 else 0
  {
    assert s in t.degraded ==> t.degraded + {s} == t.degraded;
  }

  lemma NoRecoverySendIsFree(t: Tables, a: Alert)
    requires !IsRecovery(a)
    ensures Potential(Send(t, a)) == Potential(t)
  {
    RecoveriesAppend(t.sent, a);
  }

  lemma UnhealthyIsPaid(t: Tables, svc: Settings, c: string, deploying: bool, now: int, restart: Restart)
    ensures var (t', attempt) := OnUnhealthy(t, svc, c, deploying, now, restart);
            Potential(t') <=
              Potential(t) + (if Raised(t, t', svc.service) then 1 else 0) + if attempt.Issued? then 1 else 0
  {
    hide Recoveries, OnUnhealthy, MayRestart;
    UnhealthyEffect(t, svc, c, deploying, now, restart);
    UnhealthySendsNoRecovery(t, svc, c, deploying, now, restart);
    DegradePays(t, svc.service);
    if restart.RestartOk? { MapSizes(t.cooldowns, c, restart.at + svc.cooldown); }
  }

  lemma UnhealthySendsNoRecovery(t: Tables, svc: Settings, c: string, deploying: bool, now: int, restart: Restart)
    ensures Recoveries(OnUnhealthy(t, svc, c, deploying, now, restart).0.sent) == Recoveries(t.sent)
  {
    hide Recoveries, InCooldown, Count;
    RecoveriesAppend(t.sent, UnhealthyAlert);
    RecoveriesAppend(t.sent, CriticalAlert);
  }

  lemma HealthyIsPaid(t: Tables, svc: Settings, c: string, deploying: bool)
    ensures Potential(OnHealthy(t, svc, c, deploying)) <= Potential(t)
  {
    hide Recoveries;
    MapSizes(t.cooldowns, c, 0);
    RecoveriesAppend(t.sent, HealthyAlert);
  }

  /** Every unit a step adds to the potential is a degradation or a successful restart. */
  lemma StepIsPaid(h: State, e: Event)
    ensures Potential(Step(h, e).t) <= Potential(h.t) + Degrades(h, e) + Restarts(h, e)
  {
    hide Potential, OnUnhealthy, OnHealthy, Send, ClearService;
    match e {
      case Unhealthy(svc, c, deploying, now, restart) => UnhealthyIsPaid(h.t, svc, c, deploying, now, restart);
      case Verified(task, f) =>
        var counts := h.t.restartCounts[task.svc.service := Count(h.t.restartCounts, task.svc.service) + 1];
        NoRecoverySendIsFree(h.t.(restartCounts := counts), CriticalAlert);
        CountsAreFree(h.t, counts);
        if task.svc.service in h.t.degraded { ClearPays(h.t, task.svc.service, RestartedAlert); }
      case Healthy(svc, c, deploying) => HealthyIsPaid(h.t, svc, c, deploying);
      case Died(svc, _, _) =>
        var t1 := h.t.(degraded := h.t.degraded + {svc.service});
        DegradePays(h.t, svc.service);
        NoRecoverySendIsFree(t1, DiedAlert);
        SendKeepsDegraded(t1, DiedAlert);
      case Started(svc, seen) =>
        if svc.service in h.t.degraded { ClearPays(h.t, svc.service, RecoveredAlert); }
    }
  }

  lemma CountsAreFree(t: Tables, counts: map<string, int>)
    ensures Potential(t.(restartCounts := counts)) == Potential(t)
  {}

  lemma SendKeepsDegraded(t: Tables, a: Alert)
    ensures Send(t, a).degraded == t.degraded
  {}

  /** Recovery alerts are paid for: never more than degradations plus successful restarts. */
  lemma {:induction false} RecoveryAlertsArePaidFor(es: seq<Event>)
    ensures Recoveries(Run(es).t.sent) + |Run(es).t.degraded| + |Run(es).t.cooldowns|
         <= TotalDegradations(es) + TotalRestarts(es)
  {
    if es != [] {
      RecoveryAlertsArePaidFor(es[..|es| - 1]);
      StepIsPaid(Run(es[..|es| - 1]), es[|es| - 1]);
    }
  }

  /** One restart can yield one or two recovery alerts: one when the healthy event comes before the
      verification, two when it comes after, and two again when the service dies in between. */
  lemma OneRestartManyAlerts(h: State, svc: Settings, c: string, now: int, at: int)
    requires svc.autoHeal && svc.service !in h.t.degraded && Count(h.t.restartCounts, svc.service) < svc.maxRestarts
    requires !InCooldown(h.t, c, now)
    ensures var task := Task(svc, c);
            var h1 := Step(h, Unhealthy(svc, c, false, now, RestartOk(at)));
            var h2 := Step(h1, Healthy(svc, c, false));
            && Step(Step(h1, Verified(task, Fine)), Healthy(svc, c, false)).t.sent
               == h.t.sent + [RestartedAlert] + [HealthyAlert]
            && Step(h2, Verified(task, Fine)).t.sent == h.t.sent + [HealthyAlert]
            && Step(Step(h2, Died(svc, false, false)), Verified(task, Fine)).t.sent
               == h.t.sent + [HealthyAlert] + [DiedAlert] + [RestartedAlert]
  {
    hide OnUnhealthy, OnVerified, OnHealthy, OnDied, Send, ClearService;
    var task := Task(svc, c);
    var h1 := Step(h, Unhealthy(svc, c, false, now, RestartOk(at)));
    UnhealthyEffect(h.t, svc, c, false, now, RestartOk(at));
    RestartSendsNothing(h.t, svc, c, now, at);
    assert task in h1.pending;
    RecoveryAlertsOfVerified(h1.t, task);
    RecoveryAlertsOfHealthy(h1.t, svc, c, false);
    RecoveryAlertsOfHealthy(OnVerified(h1.t, task, Fine), svc, c, false);
    var t2 := OnHealthy(h1.t, svc, c, false);
    RecoveryAlertsOfVerified(t2, task);
    DeathAfterRecovery(t2, svc);
    RecoveryAlertsOfVerified(OnDied(t2, svc, false, false), task);
  }

  lemma DeathAfterRecovery(t: Tables, svc: Settings)
    requires svc.service !in t.degraded
    ensures OnDied(t, svc, false, false).sent == t.sent + [DiedAlert]
    ensures OnDied(t, svc, false, false).degraded == t.degraded + {svc.service}
  {}

  lemma RestartSendsNothing(t: Tables, svc: Settings, c: string, now: int, at: int)
    requires MayRestart(t, svc, c, false, now)
    ensures OnUnhealthy(t, svc, c, false, now, RestartOk(at)).0.sent == t.sent
  {}

  lemma RecoveryAlertsOfVerified(t: Tables, task: Task)
    ensures var t' := OnVerified(t, task, Fine);
            && t'.sent == (if task.svc.service in t.degraded then t.sent + [RestartedAlert] else t.sent)
            && t'.degraded == t.degraded - {task.svc.service} && t'.cooldowns == t.cooldowns
  {}

  lemma RecoveryAlertsOfHealthy(t: Tables, svc: Settings, c: string, deploying: bool)
    ensures var t' := OnHealthy(t, svc, c, deploying);
            && t'.sent == (if !deploying && (c in t.cooldowns || svc.service in t.degraded)
                           then t.sent + [HealthyAlert] else t.sent)
            && t'.degraded == t.degraded - {svc.service} && t'.cooldowns == t.cooldowns - {c}
  {}

  // ---- the restart budget ----

  ghost function Service(e: Event): string {
    if e.Verified? then e.task.svc.service else e.svc.service
  }

  /** The step clears the service's degraded flag. */
  ghost predicate Recovers(h: State, e: Event, s: string) {
    s in h.t.degraded && s !in Step(h, e).t.degraded
  }

  /** A verification that ran and found the service's container still unhealthy. */
  ghost predicate Fails(h: State, e: Event, s: string) {
    e.Verified? && e.task in h.pending && e.finding.StillUnhealthy? && e.task.svc.service == s
  }

  /** Failed verifications since the last recovery. */
  ghost function FailuresSinceRecovery(es: seq<Event>, s: string): nat {
    if es == [] then 0
    else
      var h, e := Run(es[..|es| - 1]), es[|es| - 1];
      if Recovers(h, e, s) then 0
      else FailuresSinceRecovery(es[..|es| - 1], s) + if Fails(h, e, s) then 1 else 0
  }

  lemma StepCounts(h: State, e: Event, s: string)
    ensures Count(Step(h, e).t.restartCounts, s)
         == if Recovers(h, e, s) then 0 else Count(h.t.restartCounts, s) + if Fails(h, e, s) then 1 else 0
  {
    hide OnUnhealthy, OnVerified, OnHealthy, OnDied, OnStarted;
    if e.Unhealthy? {
      UnhealthyEffect(h.t, e.svc, e.container, e.deploying, e.now, e.restart);
    } else if e.Verified? {
      VerifiedCounts(h.t, e.task, e.finding, s);
    } else {
      OthersCount(h, e, s);
    }
  }

  lemma VerifiedCounts(t: Tables, task: Task, f: Finding, s: string)
    ensures var t', r := OnVerified(t, task, f), task.svc.service;
            && (s in t.degraded && s !in t'.degraded <==> f.Fine? && s == r && s in t.degraded)
            && Count(t'.restartCounts, s) ==
                 if f.Fine? && s == r && s in t.degraded then 0
                 else Count(t.restartCounts, s) + if f.StillUnhealthy? && s == r then 1 else 0
  {}

  lemma OthersCount(h: State, e: Event, s: string)
    requires !e.Unhealthy? && !e.Verified?
    ensures Count(Step(h, e).t.restartCounts, s) == if Recovers(h, e, s) then 0 else Count(h.t.restartCounts, s)
  {}

  /** The counter of a service is the number of failed verifications since its last recovery. */
  lemma {:induction false} CountsAreFailures(es: seq<Event>, s: string)
    ensures Count(Run(es).t.restartCounts, s) == FailuresSinceRecovery(es, s)
  {
    hide Step, Recovers, Fails;
    if es != [] {
      CountsAreFailures(es[..|es| - 1], s);
      StepCounts(Run(es[..|es| - 1]), es[|es| - 1], s);
    }
  }

  /** An unhealthy event of the service whose settings the present count exhausts. */
  ghost predicate SpentAt(es: seq<Event>, k: nat, s: string)
    requires k < |es|
  {
    es[k].Unhealthy? && es[k].svc.service == s && Count(Run(es).t.restartCounts, s) >= es[k].svc.maxRestarts
  }

  lemma ExhaustedStep(h: State, e: Event, s: string)
    ensures s in Step(h, e).t.exhausted ==>
              !Recovers(h, e, s) &&
              (s in h.t.exhausted || (s in Step(h, e).t.degraded && e.Unhealthy? && e.svc.service == s
                                      && Count(h.t.restartCounts, s) >= e.svc.maxRestarts))
  {
    hide OnUnhealthy;
    if e.Unhealthy? { UnhealthyEffect(h.t, e.svc, e.container, e.deploying, e.now, e.restart); }
  }

  /** In every run, settings edited or not, an exhausted service is degraded and its count is at or over the
      maximum that some unhealthy event of it was handled with. */
  lemma {:induction false} ExhaustedWasSpent(es: seq<Event>, s: string)
    ensures s in Run(es).t.exhausted ==> s in Run(es).t.degraded && exists k :: 0 <= k < |es| && SpentAt(es, k, s)
  {
    hide Step, Count;
    if es != [] {
      var n := |es| - 1;
      var h, e := Run(es[..n]), es[n];
      ExhaustedWasSpent(es[..n], s);
      ExhaustedStep(h, e, s);
      StepCounts(h, e, s);
      if s in h.t.exhausted && !Recovers(h, e, s) {
        var k :| 0 <= k < n && SpentAt(es[..n], k, s);
        assert SpentAt(es, k, s);
      } else if s in Run(es).t.exhausted {
        assert SpentAt(es, n, s);
      }
    } else {
      assert s !in Run(es).t.exhausted;
    }
  }

  /** A service keeps its settings during the run. */
  ghost predicate Configured(es: seq<Event>, cfg: map<string, Settings>) {
    forall k :: 0 <= k < |es| ==>
      var svc := if es[k].Verified? then es[k].task.svc else es[k].svc;
      svc.service in cfg && cfg[svc.service] == svc
  }

  /** Given up on means degraded and out of budget. */
  ghost predicate ExhaustedMeansSpent(t: Tables, cfg: map<string, Settings>) {
    forall s :: s in t.exhausted ==>
      s in t.degraded && s in cfg && Count(t.restartCounts, s) >= cfg[s].maxRestarts
  }

  /** With fixed settings an exhausted service is degraded and has used its whole budget. */
  lemma ExhaustedIsDegradedAndSpent(es: seq<Event>, cfg: map<string, Settings>)
    requires Configured(es, cfg)
    ensures ExhaustedMeansSpent(Run(es).t, cfg)
  {
    hide Run, Count;
    forall s | s in Run(es).t.exhausted
      ensures s in Run(es).t.degraded && s in cfg && Count(Run(es).t.restartCounts, s) >= cfg[s].maxRestarts
    {
      ExhaustedWasSpent(es, s);
    }
  }

  /** Once the budget is spent no restart of the service is issued, until a recovery. */
  lemma {:induction false} NoRestartWhenSpent(es: seq<Event>, k: nat, m: nat, s: string, max: int)
    requires k <= m < |es|
    requires Count(Run(es[..k]).t.restartCounts, s) >= max
    requires forall j :: k <= j < m ==> !Recovers(Run(es[..j]), es[j], s)
    requires Service(es[m]) == s && es[m].Unhealthy? && es[m].svc.maxRestarts == max
    ensures AttemptOf(Run(es[..m]), es[m]).NotIssued?
  {
    CountNeverDrops(es, k, m, s);
  }

  lemma {:induction false} CountNeverDrops(es: seq<Event>, k: nat, n: nat, s: string)
    requires k <= n <= |es|
    requires forall j :: k <= j < n ==> !Recovers(Run(es[..j]), es[j], s)
    ensures Count(Run(es[..n]).t.restartCounts, s) >= Count(Run(es[..k]).t.restartCounts, s)
    decreases n
  {
    hide Step, Recovers, Fails;
    if n > k {
      CountNeverDrops(es, k, n - 1, s);
      RunStep(es, n - 1);
      StepCounts(Run(es[..n - 1]), es[n - 1], s);
    }
  }

  /** A healthy event resets the counter exactly when the service was degraded or had nothing to reset:
      the documented reset on every healthy event needs the degraded flag. */
  lemma HealthyResetsOnlyDegraded(h: State, svc: Settings, c: string, deploying: bool)
    ensures Count(Step(h, Healthy(svc, c, deploying)).t.restartCounts, svc.service) == 0
        <==> svc.service in h.t.degraded || Count(h.t.restartCounts, svc.service) == 0
  {}

  lemma LateFailureCounts(h: State, task: Task)
    requires task in h.pending && task.svc.service !in h.t.degraded && Count(h.t.restartCounts, task.svc.service) == 0
    ensures var h1 := Step(h, Verified(task, StillUnhealthy));
            h1.t.degraded == h.t.degraded && Count(h1.t.restartCounts, task.svc.service) == 1
  {}

  /** A restart, a recovery, the late report that the restart had failed, and then n healthy events. */
  ghost function LateRun(svc: Settings, c: string, n: nat): seq<Event>
    ensures |LateRun(svc, c, n)| == n + 3
  {
    [Unhealthy(svc, c, false, 0, RestartOk(0)), Healthy(svc, c, false), Verified(Task(svc, c), StillUnhealthy)]
      + seq(n, i => Healthy(svc, c, false))
  }

  /** The late failure stays counted however many healthy events follow. */
  lemma {:induction false} LateFailureSticks(svc: Settings, c: string, n: nat)
    requires svc.autoHeal && svc.maxRestarts > 0
    ensures var t := Run(LateRun(svc, c, n)).t;
            Count(t.restartCounts, svc.service) == 1 && svc.service !in t.degraded
  {
    hide Run, OnUnhealthy, OnVerified, OnHealthy;
    var es := LateRun(svc, c, n);
    if n == 0 {
      LateRunStart(svc, c);
      assert es[..3] == es && es[..2] == [es[0], es[1]];
      RunStep(es, 2);
      LateFailureCounts(Run(es[..2]), Task(svc, c));
    } else {
      LateFailureSticks(svc, c, n - 1);
      assert es[..n + 2] == LateRun(svc, c, n - 1) && es[..n + 3] == es;
      RunStep(es, n + 2);
      HealthyKeepsLateCount(Run(es[..n + 2]).t, svc, c);
    }
  }

  lemma LateRunStart(svc: Settings, c: string)
    requires svc.autoHeal && svc.maxRestarts > 0
    ensures var h := Run([Unhealthy(svc, c, false, 0, RestartOk(0)), Healthy(svc, c, false)]);
            Task(svc, c) in h.pending && svc.service !in h.t.degraded && Count(h.t.restartCounts, svc.service) == 0
  {
    hide Run, OnUnhealthy;
    var es := [Unhealthy(svc, c, false, 0, RestartOk(0)), Healthy(svc, c, false)];
    assert es[..0] == [] && es[..2] == es;
    NothingRun();
    RunStep(es, 0);
    RunStep(es, 1);
    UnhealthyEffect(INIT.t, svc, c, false, 0, RestartOk(0));
  }

  lemma NothingRun()
    ensures Run([]) == INIT
  {}

  lemma HealthyKeepsLateCount(t: Tables, svc: Settings, c: string)
    requires svc.service !in t.degraded
    ensures OnHealthy(t, svc, c, false).degraded == t.degraded &&
          OnHealthy(t, svc, c, false).restartCounts == t.restartCounts
  {}

  // ---- every restart is verified once ----

  function TotalVerified(es: seq<Event>): nat {
    if es == [] then 0
    else
      var h, e := Run(es[..|es| - 1]), es[|es| - 1];
      TotalVerified(es[..|es| - 1]) + if e.Verified? && e.task in h.pending then 1 else 0
  }

  /** Successful restarts are the verifications done plus those still pending. */
  lemma {:induction false} RestartsAreVerifiedOnce(es: seq<Event>)
    ensures TotalRestarts(es) == TotalVerified(es) + |Run(es).pending|
  {
    hide Step, Restarts;
    if es != [] {
      RestartsAreVerifiedOnce(es[..|es| - 1]);
      PendingStep(Run(es[..|es| - 1]), es[|es| - 1]);
    }
  }

  lemma PendingStep(h: State, e: Event)
    ensures |Step(h, e).pending| + (if e.Verified? && e.task in h.pending then 1 else 0) == |h.pending| + Restarts(h, e)
  {
    hide OnUnhealthy, OnVerified, OnHealthy, OnDied, OnStarted;
  }

  // ---- spacing ----

  /** Restarts take time and cooldowns are not negative. */
  ghost predicate Timely(e: Event) {
    e.Unhealthy? ==> e.svc.cooldown >= 0 && (e.restart.RestartOk? ==> e.now <= e.restart.at)
  }

  ghost predicate RestartsContainer(h: State, e: Event, c: string) {
    e.Unhealthy? && e.container == c && AttemptOf(h, e).Issued?
  }

  ghost predicate HealthyFor(e: Event, c: string) { e.Healthy? && e.container == c }

  lemma CooldownStep(h: State, e: Event, c: string, bound: int)
    requires c in h.t.cooldowns && h.t.cooldowns[c] >= bound && Timely(e) && !HealthyFor(e, c)
    ensures c in Step(h, e).t.cooldowns && Step(h, e).t.cooldowns[c] >= bound
    ensures RestartsContainer(h, e, c) ==> e.now >= bound
  {
    hide OnUnhealthy, OnVerified, OnHealthy, OnDied, OnStarted;
    if e.Unhealthy? {
      UnhealthyEffect(h.t, e.svc, e.container, e.deploying, e.now, e.restart);
    } else {
      OthersKeepCooldowns(h, e);
    }
  }

  lemma OthersKeepCooldowns(h: State, e: Event)
    requires !e.Unhealthy?
    ensures Step(h, e).t.cooldowns == if e.Healthy? then h.t.cooldowns - {e.container} else h.t.cooldowns
  {}

  lemma RestartSetsCooldown(h: State, e: Event, c: string)
    requires RestartsContainer(h, e, c)
    ensures e.restart.RestartOk? && Lookup(Step(h, e).t.cooldowns, c) == Some(e.restart.at + e.svc.cooldown)
  {
    hide OnUnhealthy;
    UnhealthyEffect(h.t, e.svc, e.container, e.deploying, e.now, e.restart);
  }

  lemma {:induction false} CooldownPersists(es: seq<Event>, k: nat, n: nat, c: string)
    requires k < n <= |es| && RestartsContainer(Run(es[..k]), es[k], c) && es[k].restart.RestartOk?
    requires forall j :: k <= j < n ==> Timely(es[j])
    requires forall j :: k < j < n ==> !HealthyFor(es[j], c)
    ensures c in Run(es[..n]).t.cooldowns && Run(es[..n]).t.cooldowns[c] >= es[k].restart.at + es[k].svc.cooldown
    decreases n
  {
    hide Step, HealthyFor, Timely;
    RunStep(es, n - 1);
    RestartSetsCooldown(Run(es[..k]), es[k], c);
    if n > k + 1 {
      CooldownPersists(es, k, n - 1, c);
      CooldownStep(Run(es[..n - 1]), es[n - 1], c, es[k].restart.at + es[k].svc.cooldown);
    }
  }

  /** Two successful restarts of one container are a full cooldown apart, unless a healthy event
      of that container was handled in between. */
  lemma RestartsAreSpaced(es: seq<Event>, k: nat, m: nat, c: string)
    requires k < m < |es| && (forall j :: k <= j <= m ==> Timely(es[j]))
    requires RestartsContainer(Run(es[..k]), es[k], c) && RestartsContainer(Run(es[..m]), es[m], c)
    requires forall j :: k < j < m ==> !HealthyFor(es[j], c)
    ensures es[m].now >= es[k].restart.at + es[k].svc.cooldown
    ensures es[m].restart.RestartOk? && es[m].restart.at - es[k].restart.at >= es[k].svc.cooldown
  {
    hide Step;
    RestartSetsCooldown(Run(es[..k]), es[k], c);
    RestartSetsCooldown(Run(es[..m]), es[m], c);
    CooldownPersists(es, k, m, c);
    CooldownStep(Run(es[..m]), es[m], c, es[k].restart.at + es[k].svc.cooldown);
  }

  /** When the container's last successful restart lets it be restarted again; none after a healthy event. */
  ghost function LastCooldown(es: seq<Event>, c: string): Option<int> {
    if es == [] then None
    else
      var h, e := Run(es[..|es| - 1]), es[|es| - 1];
      if RestartsContainer(h, e, c) && e.restart.RestartOk? then Some(e.restart.at + e.svc.cooldown)
      else if HealthyFor(e, c) then None
      else LastCooldown(es[..|es| - 1], c)
  }

  lemma CooldownAfter(h: State, e: Event, c: string)
    ensures Lookup(Step(h, e).t.cooldowns, c) ==
            if RestartsContainer(h, e, c) && e.restart.RestartOk? then Some(e.restart.at + e.svc.cooldown)
            else if HealthyFor(e, c) then None
            else Lookup(h.t.cooldowns, c)
  {
    hide OnUnhealthy, OnVerified, OnHealthy, OnDied, OnStarted;
    if e.Unhealthy? {
      UnhealthyEffect(h.t, e.svc, e.container, e.deploying, e.now, e.restart);
    } else {
      OthersKeepCooldowns(h, e);
    }
  }

  /** In every run the cooldown table holds what the history says. */
  lemma {:induction false} CooldownIsLast(es: seq<Event>, c: string)
    ensures Lookup(Run(es).t.cooldowns, c) == LastCooldown(es, c)
  {
    hide Step, RestartsContainer, HealthyFor;
    if es == [] {
      assert Lookup(INIT.t.cooldowns, c) == None;
    } else {
      CooldownIsLast(es[..|es| - 1], c);
      CooldownAfter(Run(es[..|es| - 1]), es[|es| - 1], c);
    }
  }

  /** When a restart is issued, in terms of the history alone: outside a deploy, with healing on, fewer
      failures since the last recovery than allowed, and the last successful restart of the container
      either a cooldown ago or followed by a healthy event. */
  lemma RestartIssuedExactly(es: seq<Event>, e: Event)
    requires e.Unhealthy?
    ensures !AttemptOf(Run(es), e).NotIssued? <==>
              && !e.deploying && e.svc.autoHeal
              && FailuresSinceRecovery(es, e.svc.service) < e.svc.maxRestarts
              && (LastCooldown(es, e.container).None? || LastCooldown(es, e.container).value <= e.now)
  {
    hide Run, OnUnhealthy;
    CountsAreFailures(es, e.svc.service);
    CooldownIsLast(es, e.container);
    UnhealthyEffect(Run(es).t, e.svc, e.container, e.deploying, e.now, e.restart);
  }

  /** A flapping container: restart, healthy, unhealthy again. */
  ghost function FlappingRun(svc: Settings, c: string, now: int): seq<Event> {
    [Unhealthy(svc, c, false, now, RestartOk(now)), Healthy(svc, c, false),
        Unhealthy(svc, c, false, now, RestartOk(now))]
  }

  /** The documented minimum between restarts fails even for one container: it is restarted twice at the
      same moment, whatever the cooldown, because the healthy event in between ends it. */
  lemma FlappingRestartsAtOnce(svc: Settings, c: string, now: int)
    requires svc.autoHeal && svc.maxRestarts > 0
    ensures var es := FlappingRun(svc, c, now);
            RestartsContainer(Run(es[..0]), es[0], c) && RestartsContainer(Run(es[..2]), es[2], c)
  {
    hide Run, OnUnhealthy;
    var es := FlappingRun(svc, c, now);
    assert es[..0] == [];
    NothingRun();
    RunStep(es, 0);
    RunStep(es, 1);
    UnhealthyEffect(INIT.t, svc, c, false, now, RestartOk(now));
    UnhealthyEffect(Run(es[..2]).t, svc, c, false, now, RestartOk(now));
  }

  // ---- two alerts for one restart ----

  /** The step sends exactly this alert. */
  ghost predicate Sends(h: State, e: Event, a: Alert) {
    Step(h, e).t.sent == h.t.sent + [a]
  }

  lemma {:induction false} EntryPersists(es: seq<Event>, k: nat, n: nat, c: string)
    requires k < n <= |es| && RestartsContainer(Run(es[..k]), es[k], c)
    requires forall j :: k < j < n ==> !HealthyFor(es[j], c)
    ensures c in Run(es[..n]).t.cooldowns
    decreases n
  {
    hide Step, Run, HealthyFor;
    RunStep(es, n - 1);
    if n == k + 1 {
      RestartSetsCooldown(Run(es[..k]), es[k], c);
    } else {
      EntryPersists(es, k, n - 1, c);
      EntryStep(Run(es[..n - 1]), es[n - 1], c);
    }
  }

  lemma EntryStep(h: State, e: Event, c: string)
    requires c in h.t.cooldowns && !HealthyFor(e, c)
    ensures c in Step(h, e).t.cooldowns
  {
    hide OnUnhealthy, OnVerified, OnHealthy, OnDied, OnStarted;
    if e.Unhealthy? {
      UnhealthyEffect(h.t, e.svc, e.container, e.deploying, e.now, e.restart);
    } else {
      OthersKeepCooldowns(h, e);
    }
  }

  /** The restart issued at k, the first healthy event of its container at j and its verification at m both
      alert if and only if no deploy runs at j and the service is degraded when the verification finishes. */
  lemma TwoAlertsExactly(es: seq<Event>, k: nat, j: nat, m: nat, task: Task)
    requires k < j < |es| && k < m < |es|
    requires AttemptOf(Run(es[..k]), es[k]) == Issued(task)
    requires HealthyFor(es[j], task.container) && forall i :: k < i < j ==> !HealthyFor(es[i], task.container)
    requires es[m] == Verified(task, Fine) && task in Run(es[..m]).pending
    ensures Sends(Run(es[..j]), es[j], HealthyAlert) <==> !es[j].deploying
    ensures Sends(Run(es[..m]), es[m], RestartedAlert) <==> task.svc.service in Run(es[..m]).t.degraded
  {
    hide Run, OnUnhealthy, OnHealthy, OnVerified;
    IssuedIsOwn(Run(es[..k]), es[k], task);
    EntryPersists(es, k, j, task.container);
    RecoveryAlertsOfHealthy(Run(es[..j]).t, es[j].svc, task.container, es[j].deploying);
    RecoveryAlertsOfVerified(Run(es[..m]).t, task);
  }

  lemma IssuedIsOwn(h: State, e: Event, task: Task)
    requires AttemptOf(h, e) == Issued(task)
    ensures RestartsContainer(h, e, task.container) && task == Task(e.svc, e.container)
    ensures task.svc.service in Step(h, e).t.degraded
  {
    hide OnUnhealthy;
    UnhealthyEffect(h.t, e.svc, e.container, e.deploying, e.now, e.restart);
  }

  /** The step turns the service from healthy to degraded. */
  ghost predicate DegradesAt(es: seq<Event>, i: nat, s: string)
    requires i < |es|
  {
    s !in Run(es[..i]).t.degraded && s in Run(es[..i + 1]).t.degraded
  }

  ghost predicate NoRecovery(es: seq<Event>, i: nat, n: nat, s: string)
    requires n <= |es|
  {
    forall j :: i <= j < n ==> !Recovers(Run(es[..j]), es[j], s)
  }

  /** The service degrades in the stretch and does not recover by its end. */
  ghost predicate DegradesAgain(es: seq<Event>, k: nat, n: nat, s: string)
    requires n <= |es|
  {
    exists i :: k <= i < n && DegradesAt(es, i, s) && NoRecovery(es, i + 1, n, s)
  }

  /** A service is degraded exactly when it was before or became so since, without a recovery after. */
  lemma {:induction false} DegradedExactly(es: seq<Event>, k: nat, n: nat, s: string)
    requires k <= n <= |es|
    ensures s in Run(es[..n]).t.degraded <==>
              || (s in Run(es[..k]).t.degraded && NoRecovery(es, k, n, s))
              || DegradesAgain(es, k, n, s)
    decreases n
  {
    hide Run, Step;
    if n > k {
      DegradedExactly(es, k, n - 1, s);
      RunStep(es, n - 1);
      assert DegradesAt(es, n - 1, s) ==> NoRecovery(es, n, n, s);
      assert forall i :: k <= i < n ==>
          (NoRecovery(es, i, n, s) <==> NoRecovery(es, i, n - 1, s) && !Recovers(Run(es[..n - 1]), es[n - 1], s));
    }
  }

  /** When the healthy event comes first, both alert exactly if no deploy runs at it and the service degrades
      again before the verification finishes, without recovering. */
  lemma HealthyFirstAlertsTwice(es: seq<Event>, k: nat, j: nat, m: nat, task: Task)
    requires k < j < m < |es|
    requires AttemptOf(Run(es[..k]), es[k]) == Issued(task)
    requires HealthyFor(es[j], task.container) && es[j].svc.service == task.svc.service
    requires forall i :: k < i < j ==> !HealthyFor(es[i], task.container)
    requires es[m] == Verified(task, Fine) && task in Run(es[..m]).pending
    ensures Sends(Run(es[..j]), es[j], HealthyAlert) && Sends(Run(es[..m]), es[m], RestartedAlert)
       <==> !es[j].deploying && DegradesAgain(es, j + 1, m, task.svc.service)
  {
    hide Run, OnHealthy, AttemptOf, DegradesAt, NoRecovery, Sends;
    TwoAlertsExactly(es, k, j, m, task);
    RunStep(es, j);
    RecoveryAlertsOfHealthy(Run(es[..j]).t, es[j].svc, task.container, es[j].deploying);
    DegradedExactly(es, j + 1, m, task.svc.service);
  }

  /** When the verification comes first and nothing recovered the service before, both alert unless a deploy
      runs at the healthy event. */
  lemma VerifiedFirstAlertsTwice(es: seq<Event>, k: nat, j: nat, m: nat, task: Task)
    requires k < m < j < |es|
    requires AttemptOf(Run(es[..k]), es[k]) == Issued(task) && NoRecovery(es, k + 1, m, task.svc.service)
    requires HealthyFor(es[j], task.container) && forall i :: k < i < j ==> !HealthyFor(es[i], task.container)
    requires es[m] == Verified(task, Fine) && task in Run(es[..m]).pending
    ensures Sends(Run(es[..m]), es[m], RestartedAlert)
    ensures Sends(Run(es[..j]), es[j], HealthyAlert) <==> !es[j].deploying
  {
    hide Run, Step, AttemptOf, DegradesAt, NoRecovery, Sends;
    TwoAlertsExactly(es, k, j, m, task);
    RunStep(es, k);
    IssuedIsOwn(Run(es[..k]), es[k], task);
    DegradedExactly(es, k + 1, m, task.svc.service);
  }

  /** The spacing is per container, not per service as documented: another container of the same
      service is restarted at once exactly when it is not itself cooling down. */
  lemma SiblingRestartsAtOnce(h: State, svc: Settings, c1: string, c2: string, now: int)
    requires RestartsContainer(h, Unhealthy(svc, c1, false, now, RestartOk(now)), c1) && c1 != c2
    ensures var h1 := Step(h, Unhealthy(svc, c1, false, now, RestartOk(now)));
            RestartsContainer(h1, Unhealthy(svc, c2, false, now, RestartOk(now)), c2) <==> !InCooldown(h.t, c2, now)
  {}
}
