/** The healer: container health events in any order, restarts, and the verification tasks that
    finish at any later time. */
module Healer {
  import opened Common

  /** The settings a service's events are handled with. */
  datatype Settings = Settings(service: string, autoHeal: bool, maxRestarts: int, cooldown: int)

  datatype Alert = UnhealthyAlert | CriticalAlert | DiedAlert | RestartedAlert | HealthyAlert | RecoveredAlert

  /** The maps a Healer keeps and the alerts it has sent. */
  datatype Tables = Tables(
    degraded: set<string>,
    restartCounts: map<string, int>,
    exhausted: set<string>,
    cooldowns: map<string, int>,
    sent: seq<Alert>)

  const EMPTY_TABLES := Tables({}, map[], {}, map[], [])

  /** A verification scheduled by a successful restart. */
  datatype Task = Task(svc: Settings, container: string)

  /** How the Docker restart call ends, and when. */
  datatype Restart = RestartOk(at: int) | RestartError

  /** What an unhealthy event led to. */
  datatype Attempt = NotIssued | IssuedInVain | Issued(task: Task)

  datatype Finding = Shutdown | InspectError | StillUnhealthy | Fine

  datatype StartSeen = StartInspectError | HasHealthcheck | NoHealthcheck

  predicate InCooldown(t: Tables, container: string, now: int) {
    container in t.cooldowns && now < t.cooldowns[container]
  }

  /** The three entries a recovery clears. */
  function ClearService(t: Tables, s: string): Tables {
    t.(degraded := t.degraded - {s}, restartCounts := t.restartCounts - {s}, exhausted := t.exhausted - {s})
  }

  function Send(t: Tables, a: Alert): Tables { t.(sent := t.sent + [a]) }

  function OnUnhealthy(t: Tables, svc: Settings, container: string, deploying: bool, now: int,
      restart: Restart): (Tables, Attempt) {
    if deploying then (t, NotIssued)
    else
      var t1 := t.(degraded := t.degraded + {svc.service});
      if !svc.autoHeal then (Send(t1, UnhealthyAlert), NotIssued)
      else if Count(t1.restartCounts, svc.service) >= svc.maxRestarts then
        (t1.(exhausted := t1.exhausted + {svc.service}), NotIssued)
      else if InCooldown(t1, container, now) then (t1, NotIssued)
      else if restart.RestartError? then (Send(t1, CriticalAlert), IssuedInVain)
      else (t1.(cooldowns := t1.cooldowns[container := restart.at + svc.cooldown]), Issued(Task(svc, container)))
  }

  function OnVerified(t: Tables, task: Task, f: Finding): Tables {
    var s := task.svc.service;
    match f
    case Shutdown => t
    case InspectError => t
    case StillUnhealthy =>
      Send(t.(restartCounts := t.restartCounts[s := Count(t.restartCounts, s) + 1]), CriticalAlert)
    case Fine => if s in t.degraded then Send(ClearService(t, s), RestartedAlert) else t
  }

  function OnHealthy(t: Tables, svc: Settings, container: string, deploying: bool): Tables {
    var wasCooling, wasDegraded := container in t.cooldowns, svc.service in t.degraded;
    var t1 := t.(cooldowns := t.cooldowns - {container});
    var t2 := if wasDegraded then ClearService(t1, svc.service) else t1;
    if !deploying && (wasCooling || wasDegraded) then Send(t2, HealthyAlert) else t2
  }

  function OnDied(t: Tables, svc: Settings, startingUp: bool, deploying: bool): Tables {
    if startingUp || deploying || svc.service in t.degraded then t
    else Send(t.(degraded := t.degraded + {svc.service}), DiedAlert)
  }

  function OnStarted(t: Tables, svc: Settings, seen: StartSeen): Tables {
    if svc.service in t.degraded && seen.NoHealthcheck? then Send(ClearService(t, svc.service), RecoveredAlert) else t
  }

  // ---- the object ----

  class Healer {
    var degraded: set<string>
    var restartCounts: map<string, int>
    var exhausted: set<string>
    var cooldowns: map<string, int>
    var sent: seq<Alert>

    ghost function View(): Tables
      reads this
    {
      Tables(degraded, restartCounts, exhausted, cooldowns, sent)
    }

    constructor ()
      ensures View() == EMPTY_TABLES
    {
      degraded, restartCounts, exhausted, cooldowns, sent := {}, map[], {}, map[], [];
    }

    method SetDegraded(service: string, value: bool)
      modifies this`degraded
      ensures degraded == if value then old(degraded) + {service} else old(degraded) - {service}
    {
      if value { degraded := degraded + {service}; } else { degraded := degraded - {service}; }
    }

    method HandleUnhealthy(svc: Settings, container: string, deploying: bool, now: int, restart: Restart)
        returns (attempt: Attempt)
      modifies this
      ensures (View(), attempt) == OnUnhealthy(old(View()), svc, container, deploying, now, restart)
    {
      if deploying { return NotIssued; }
      SetDegraded(svc.service, true);
      if !svc.autoHeal {
        sent := sent + [UnhealthyAlert];
        return NotIssued;
      }
      var count := Count(restartCounts, svc.service);
      if count >= svc.maxRestarts {
        exhausted := exhausted + {svc.service};
        return NotIssued;
      }
      if container in cooldowns && now < cooldowns[container] { return NotIssued; }
      if restart.RestartError? {
        sent := sent + [CriticalAlert];
        return IssuedInVain;
      }
      cooldowns := cooldowns[container := restart.at + svc.cooldown];
      return Issued(Task(svc, container));
    }

    method VerifyAfterRestart(task: Task, f: Finding)
      modifies this
      ensures View() == OnVerified(old(View()), task, f)
    {
      var s := task.svc.service;
      if f.Shutdown? || f.InspectError? { return; }
      if f.StillUnhealthy? {
        restartCounts := restartCounts[s := Count(restartCounts, s) + 1];
        sent := sent + [CriticalAlert];
        return;
      }
      if s !in degraded { return; }
      SetDegraded(s, false);
      restartCounts := restartCounts - {s};
      exhausted := exhausted - {s};
      sent := sent + [RestartedAlert];
    }

    method HandleHealthy(svc: Settings, container: string, deploying: bool)
      modifies this
      ensures View() == OnHealthy(old(View()), svc, container, deploying)
    {
      var wasCooling := container in cooldowns;
      cooldowns := cooldowns - {container};
      var wasDegraded := svc.service in degraded;
      if wasDegraded {
        SetDegraded(svc.service, false);
        restartCounts := restartCounts - {svc.service};
        exhausted := exhausted - {svc.service};
      }
      if deploying { return; }
      if !wasCooling && !wasDegraded { return; }
      sent := sent + [HealthyAlert];
    }

    method HandleDied(svc: Settings, startingUp: bool, deploying: bool)
      modifies this
      ensures View() == OnDied(old(View()), svc, startingUp, deploying)
    {
      if startingUp { return; }
      if deploying { return; }
      if svc.service in degraded { return; }
      SetDegraded(svc.service, true);
      sent := sent + [DiedAlert];
    }

    method HandleStarted(svc: Settings, seen: StartSeen)
      modifies this
      ensures View() == OnStarted(old(View()), svc, seen)
    {
      if svc.service !in degraded { return; }
      if seen.StartInspectError? { return; }
      if seen.HasHealthcheck? { return; }
      SetDegraded(svc.service, false);
      restartCounts := restartCounts - {svc.service};
      exhausted := exhausted - {svc.service};
      sent := sent + [RecoveredAlert];
    }
  }

  // ---- runs ----

  datatype State = State(t: Tables, pending: multiset<Task>)

  const INIT := State(EMPTY_TABLES, multiset{})

  datatype Event =
    | Unhealthy(svc: Settings, container: string, deploying: bool, now: int, restart: Restart)
    | Verified(task: Task, finding: Finding)
    | Healthy(svc: Settings, container: string, deploying: bool)
    | Died(svc: Settings, startingUp: bool, deploying: bool)
    | Started(svc: Settings, seen: StartSeen)

  /** Every handler is one step; a verification runs only if a restart scheduled it. */
  function Step(h: State, e: Event): State {
    match e
    case Unhealthy(svc, c, deploying, now, restart) =>
      var (t, attempt) := OnUnhealthy(h.t, svc, c, deploying, now, restart);
      State(t, if attempt.Issued? then h.pending + multiset{attempt.task} else h.pending)
    case Verified(task, f) => if task in h.pending then State(OnVerified(h.t, task, f), h.pending - multiset{task})
        else h
    case Healthy(svc, c, deploying) => h.(t := OnHealthy(h.t, svc, c, deploying))
    case Died(svc, startingUp, deploying) => h.(t := OnDied(h.t, svc, startingUp, deploying))
    case Started(svc, seen) => h.(t := OnStarted(h.t, svc, seen))
  }

  function Run(es: seq<Event>): State {
    if es == [] then INIT else Step(Run(es[..|es| - 1]), es[|es| - 1])
  }

  lemma RunStep(es: seq<Event>, k: nat)
    requires k < |es|
    ensures Run(es[..k + 1]) == Step(Run(es[..k]), es[k])
  {
    assert es[..k + 1][..k] == es[..k];
  }

  function AttemptOf(h: State, e: Event): Attempt {
    if e.Unhealthy? then OnUnhealthy(h.t, e.svc, e.container, e.deploying, e.now, e.restart).1 else NotIssued
  }
}
