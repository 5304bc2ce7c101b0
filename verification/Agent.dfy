/** Updater and healer together: the healer reads the deploying flag that the updater's
    operations set and clear, and the two take steps in any order. */
module Agent {
  import opened Common
  import P = Protocol
  import H = Healer
  import Healing
  import U = Updater

  datatype State = State(p: P.State, h: H.State)

  const INIT := State(P.INIT, H.INIT)

  datatype Event = Deploying(p: P.Event) | Healing(h: H.Event)

  /** A health event with the flag the healer actually reads. */
  function Observed(e: H.Event, deploying: set<string>): H.Event {
    match e
    case Unhealthy(svc, c, _, now, restart) => H.Unhealthy(svc, c, svc.service in deploying, now, restart)
    case Healthy(svc, c, _) => H.Healthy(svc, c, svc.service in deploying)
    case Died(svc, startingUp, _) => H.Died(svc, startingUp, svc.service in deploying)
    case _ => e
  }

  function Step(a: State, e: Event): State {
    match e
    case Deploying(p) => a.(p := P.Step(a.p, p))
    case Healing(h) => a.(h := H.Step(a.h, Observed(h, a.p.t.deploying)))
  }

  function Run(es: seq<Event>): State {
    if es == [] then INIT else Step(Run(es[..|es| - 1]), es[|es| - 1])
  }

  /** The updater's share of a run, and the healer's with the flags it saw. */
  function DeployEvents(es: seq<Event>): seq<P.Event> {
    if es == [] then []
    else
      var n := |es| - 1;
      DeployEvents(es[..n]) + if es[n].Deploying? then [es[n].p] else []
  }

  function HealEvents(es: seq<Event>): seq<H.Event> {
    if es == [] then []
    else
      var n := |es| - 1;
      HealEvents(es[..n]) + if es[n].Healing? then [Observed(es[n].h, Run(es[..n]).p.t.deploying)] else []
  }

  /** Each half of a combined run is a run of its own protocol, so all their theorems carry over. */
  lemma {:induction false} HalvesAreRuns(es: seq<Event>)
    ensures Run(es).p == P.Run(DeployEvents(es))
    ensures Run(es).h == H.Run(HealEvents(es))
  {
    hide P.Step, H.Step, Observed;
    if es != [] {
      var n := |es| - 1;
      HalvesAreRuns(es[..n]);
      var d, h := DeployEvents(es[..n]), HealEvents(es[..n]);
      if es[n].Deploying? {
        assert (d + [es[n].p])[..|d|] == d && HealEvents(es) == h;
      } else {
        var o := Observed(es[n].h, Run(es[..n]).p.t.deploying);
        assert (h + [o])[..|h|] == h && DeployEvents(es) == d;
      }
    }
  }

  /** The healer issues a restart command of the service. */
  ghost predicate IssuesRestart(a: State, e: Event, s: string) {
    e.Healing? && e.h.Unhealthy? && e.h.svc.service == s
    && !H.AttemptOf(a.h, Observed(e.h, a.p.t.deploying)).NotIssued?
  }

  /** No restart is issued for a service whose flag is set when the event is taken. */
  lemma FlagStopsRestarts(a: State, e: Event, s: string)
    requires IssuesRestart(a, e, s)
    ensures s !in a.p.t.deploying
  {
    hide H.OnUnhealthy;
    Healing.UnhealthyEffect(a.h.t, e.h.svc, e.h.container, s in a.p.t.deploying, e.h.now, e.h.restart);
  }

  lemma {:induction false} DeployPrefixes(es: seq<Event>, k: nat) returns (n: nat)
    requires k <= |es|
    ensures n <= |DeployEvents(es)| && DeployEvents(es)[..n] == DeployEvents(es[..k])
    decreases |es|
  {
    if k == |es| {
      n := |DeployEvents(es)|;
      assert es[..k] == es;
    } else {
      var m := |es| - 1;
      n := DeployPrefixes(es[..m], k);
      assert es[..m][..k] == es[..k];
      assert DeployEvents(es)[..|DeployEvents(es[..m])|] == DeployEvents(es[..m]);
      assert DeployEvents(es)[..n] == DeployEvents(es[..m])[..n];
    }
  }

  /** The healer can never restart the service while an operation of it is in flight. */
  ghost predicate StaysOut(a: State, s: string) {
    forall e :: IssuesRestart(a, e, s) ==> P.InFlight(a.p.ops, s) == 0
  }

  /** At any point of any run the healer stays out of the service's operations, whatever event comes, if
      and only if the flag covers the service. */
  lemma StaysOutExactly(es: seq<Event>, s: string)
    ensures StaysOut(Run(es), s) <==> P.Covered(Run(es).p, s)
  {
    hide Run, P.InFlight, IssuesRestart;
    var a := Run(es);
    HalvesAreRuns(es);
    P.FlagNeverLeaks(DeployEvents(es), s);
    if s !in a.p.t.deploying {
      var e := RestartEvent(a, s);
      assert StaysOut(a, s) ==> P.InFlight(a.p.ops, s) == 0;
    } else {
      NoneWhileFlagged(a, s);
    }
  }

  lemma NoneWhileFlagged(a: State, s: string)
    requires s in a.p.t.deploying
    ensures forall e :: !IssuesRestart(a, e, s)
  {
    hide IssuesRestart;
    forall e ensures !IssuesRestart(a, e, s) {
      if IssuesRestart(a, e, s) { FlagStopsRestarts(a, e, s); }
    }
  }

  /** With the flag clear some unhealthy event makes the healer restart. */
  lemma RestartEvent(a: State, s: string) returns (e: Event)
    requires s !in a.p.t.deploying
    ensures IssuesRestart(a, e, s)
  {
    hide H.OnUnhealthy;
    var svc := H.Settings(s, true, Count(a.h.t.restartCounts, s) + 1, 0);
    var now := Count(a.h.t.cooldowns, "");
    Healing.UnhealthyEffect(a.h.t, svc, "", false, now, H.RestartOk(now));
    e := Healing(H.Unhealthy(svc, "", false, now, H.RestartOk(now)));
  }

  /** The combined run that a prefix of its updater half comes from. */
  lemma {:induction false} PrefixSource(es: seq<Event>, n: nat) returns (k: nat)
    requires n <= |DeployEvents(es)|
    ensures k <= |es| && DeployEvents(es[..k]) == DeployEvents(es)[..n]
    decreases |es|
  {
    if n == |DeployEvents(es)| {
      k := |es|;
      assert es[..k] == es;
    } else {
      var m := |es| - 1;
      k := PrefixSource(es[..m], n);
      assert es[..m][..k] == es[..k];
    }
  }

  /** Over a whole run the healer stays out of the service's operations at every point if and only if no
      operation of it ended while another was in flight. */
  lemma HealerStaysOutExactly(es: seq<Event>, s: string)
    ensures (forall k :: 0 <= k <= |es| ==> StaysOut(Run(es[..k]), s)) <==> P.NeverUncovers(DeployEvents(es), s)
  {
    hide Run, P.Run, P.Covered, P.NeverUncovers, StaysOut;
    var ps := DeployEvents(es);
    P.CoveredExactly(ps, s);
    if P.CoveredThroughout(ps, s) {
      forall k | 0 <= k <= |es| ensures StaysOut(Run(es[..k]), s) {
        StaysOutExactly(es[..k], s);
        HalvesAreRuns(es[..k]);
        var n := DeployPrefixes(es, k);
        P.CoveredAt(ps, n, s);
      }
    }
    if forall k :: 0 <= k <= |es| ==> StaysOut(Run(es[..k]), s) {
      forall n | 0 <= n <= |ps| ensures P.Covered(P.Run(ps[..n]), s) {
        var k := PrefixSource(es, n);
        StaysOutExactly(es[..k], s);
        HalvesAreRuns(es[..k]);
      }
    }
  }

  /** In particular a restart that is issued in such a run meets no deploy and no other operation. */
  lemma HealerKeepsOutOfDeploys(es: seq<Event>, k: nat, s: string)
    requires k < |es| && P.NeverUncovers(DeployEvents(es), s)
    requires IssuesRestart(Run(es[..k]), es[k], s)
    ensures P.InFlight(Run(es[..k]).p.ops, s) == 0
  {
    hide Run, P.NeverUncovers, IssuesRestart, DeployEvents;
    HealerStaysOutExactly(es, s);
    assert StaysOut(Run(es[..k]), s);
  }

  /** With an overlap it can: a forced redeploy that fails during a deploy clears the flag, and the
      next unhealthy event restarts the container in the middle of the deploy. */
  lemma OverlapLetsHealerIn(s: string, image: string, d1: U.Digest, d2: U.Digest, svc: H.Settings, c: string)
    requires d1 != "" && d1 != d2 && svc.service == s && svc.autoHeal && svc.maxRestarts > 0
    ensures var poll := P.Poll(U.Service(s, [image], false), [U.Reading(d2, d1)], U.Running, false, false);
            var es := [Deploying(poll), Deploying(P.ForceRedeploy(s)),
                Deploying(P.ComposeDone(1, Some("compose failed")))];
            var a := Run(es);
            P.InFlight(a.p.ops, s) == 1 && IssuesRestart(a, Healing(H.Unhealthy(svc, c, false, 0, H.RestartOk(0))), s)
  {
    hide P.Step, H.OnUnhealthy;
    var poll := P.Poll(U.Service(s, [image], false), [U.Reading(d2, d1)], U.Running, false, false);
    var ps := [poll, P.ForceRedeploy(s), P.ComposeDone(1, Some("compose failed"))];
    var es := [Deploying(ps[0]), Deploying(ps[1]), Deploying(ps[2])];
    P.OverlapUncoversDeploy(s, image, d1, d2);
    assert es[..1] == [es[0]] && es[..2] == [es[0], es[1]] && es[..3] == es;
    assert DeployEvents(es[..1]) == [ps[0]] && HealEvents(es[..1]) == [] by {
      assert es[..1][..0] == [];
    }
    assert DeployEvents(es[..2]) == [ps[0], ps[1]] && HealEvents(es[..2]) == [] by {
      assert es[..2][..1] == es[..1];
    }
    assert DeployEvents(es) == ps && HealEvents(es) == [] by {
      assert es[..3][..2] == es[..2];
    }
    HalvesAreRuns(es);
    var a := Run(es);
    assert a.p.ops[..0] == [];
    assert P.InFlight(a.p.ops, s) == 1;
    Healing.UnhealthyEffect(a.h.t, svc, c, s in a.p.t.deploying, 0, H.RestartOk(0));
  }

  /** While a deploy runs the healer is mute: no death is news, no healthy event alerts, no unhealthy event does
      anything. */
  lemma DeploysMuteTheHealer(a: State, e: H.Event)
    requires (e.Unhealthy? || e.Healthy? || e.Died?) && e.svc.service in a.p.t.deploying
    ensures var a' := Step(a, Healing(e));
            && a'.p == a.p && a'.h.t.sent == a.h.t.sent && a'.h.pending == a.h.pending
            && (!e.Healthy? ==> a' == a)
  {
    match e {
      case Unhealthy(svc, c, _, now, restart) =>
      case Healthy(svc, c, _) => Healing.HealthyExactly(a.h, svc, c, true);
      case Died(svc, startingUp, _) => Healing.DiedExactly(a.h, svc, startingUp, true);
    }
  }
}
