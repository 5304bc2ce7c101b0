/** The two timed health loops: after an image deploy (success or rollback) and after any other
    compose operation (gauge up or down). */
module Verification {

  /** What one tick finds: shutdown, no container, a failed inspect, a container without a
      healthcheck, or a health status with its last output. */
  datatype Observation =
    | Interrupted
    | NoContainer
    | InspectFailed(error: string)
    | NoHealthcheck(running: bool)
    | Health(status: string, output: string)

  datatype Tick = Tick(seen: Observation, now: int)

  datatype Verdict = Pending | Abandoned | Success | RollBack(reason: string)

  datatype GaugeVerdict = GaugePending | GaugeAbandoned | MarkHealthy | MarkUnhealthy

  predicate Good(o: Observation) {
    o == NoHealthcheck(true) || (o.Health? && o.status == "healthy")
  }

  /** A tick ends the loop when it is interrupted, good, outright unhealthy, or late. */
  predicate Decides(t: Tick, deadline: int) {
    t.seen.Interrupted? || Good(t.seen) || (t.seen.Health? && t.seen.status == "unhealthy") || t.now > deadline
  }

  function Reason(o: Observation): string {
    match o
    case Interrupted => ""
    case NoContainer => "container not found after deploy"
    case InspectFailed(e) => "inspect failed: " + e
    case NoHealthcheck(_) => "container not running"
    case Health(_, output) => output
  }

  /** Index of the first tick that ends the loop, or the trace length. */
  function FirstDecision(ticks: seq<Tick>, deadline: int): (n: nat)
    ensures n <= |ticks|
    ensures n < |ticks| ==> Decides(ticks[n], deadline)
    ensures forall k :: 0 <= k < n ==> !Decides(ticks[k], deadline)
  {
    if ticks == [] then 0
    else if Decides(ticks[0], deadline) then 0
    else 1 + FirstDecision(ticks[1..], deadline)
  }

  method VerifyAfterDeploy(ticks: seq<Tick>, start: int, grace: int) returns (r: Verdict, n: nat)
    ensures n == FirstDecision(ticks, start + grace)
    ensures r == if n == |ticks| then Pending
                 else if ticks[n].seen.Interrupted? then Abandoned
                 else if Good(ticks[n].seen) then Success
                 else RollBack(Reason(ticks[n].seen))
    ensures r.Pending? <==> n == |ticks|
    ensures forall k :: 0 <= k < n ==> ticks[k].now <= start + grace && ticks[k].seen != Interrupted
    ensures forall k :: 0 <= k < n ==> ticks[k].seen != NoHealthcheck(true)
    ensures forall k :: 0 <= k < n && ticks[k].seen.Health? ==>
      ticks[k].seen.status != "healthy" && ticks[k].seen.status != "unhealthy"
    ensures n < |ticks| ==>
              match ticks[n].seen
              case Interrupted => r == Abandoned
              case NoContainer => ticks[n].now > start + grace && r == RollBack("container not found after deploy")
              case InspectFailed(e) => ticks[n].now > start + grace && r == RollBack("inspect failed: " + e)
              case NoHealthcheck(running) =>
                if running then r == Success
                else ticks[n].now > start + grace && r == RollBack("container not running")
              case Health(status, output) =>
                if status == "healthy" then r == Success
                else if status == "unhealthy" then r == RollBack(output)
                else ticks[n].now > start + grace && r == RollBack(output)
  {
    var deadline := start + grace;
    n := 0;
    while n < |ticks|
      invariant n <= |ticks|
      invariant forall k :: 0 <= k < n ==> !Decides(ticks[k], deadline)
    {
      var t := ticks[n];
      match t.seen {
        case Interrupted => return Abandoned, n;
        case NoContainer =>
          if t.now > deadline { return RollBack("container not found after deploy"), n; }
        case InspectFailed(e) =>
          if t.now > deadline { return RollBack("inspect failed: " + e), n; }
        case NoHealthcheck(running) =>
          if running { return Success, n; }
          if t.now > deadline { return RollBack("container not running"), n; }
        case Health(status, output) =>
          if status == "healthy" { return Success, n; }
          if status == "unhealthy" { return RollBack(output), n; }
          if t.now > deadline { return RollBack(output), n; }
      }
      n := n + 1;
    }
    r := Pending;
  }

  method VerifyHealthAfterCompose(ticks: seq<Tick>, start: int, grace: int) returns (r: GaugeVerdict, n: nat)
    ensures n == FirstDecision(ticks, start + grace)
    ensures r == if n == |ticks| then GaugePending
                 else if ticks[n].seen.Interrupted? then GaugeAbandoned
                 else if Good(ticks[n].seen) then MarkHealthy
                 else MarkUnhealthy
    ensures r.GaugePending? <==> n == |ticks|
    ensures forall k :: 0 <= k < n ==> ticks[k].now <= start + grace && ticks[k].seen != Interrupted
    ensures forall k :: 0 <= k < n ==> ticks[k].seen != NoHealthcheck(true)
    ensures forall k :: 0 <= k < n && ticks[k].seen.Health? ==>
      ticks[k].seen.status != "healthy" && ticks[k].seen.status != "unhealthy"
    ensures n < |ticks| ==>
              match ticks[n].seen
              case Interrupted => r == GaugeAbandoned
              case NoContainer => ticks[n].now > start + grace && r == MarkUnhealthy
              case InspectFailed(_) => ticks[n].now > start + grace && r == MarkUnhealthy
              case NoHealthcheck(running) =>
                if running then r == MarkHealthy else ticks[n].now > start + grace && r == MarkUnhealthy
              case Health(status, _) =>
                if status == "healthy" then r == MarkHealthy
                else if status == "unhealthy" then r == MarkUnhealthy
                else ticks[n].now > start + grace && r == MarkUnhealthy
  {
    var deadline := start + grace;
    n := 0;
    while n < |ticks|
      invariant n <= |ticks|
      invariant forall k :: 0 <= k < n ==> !Decides(ticks[k], deadline)
    {
      var t := ticks[n];
      match t.seen {
        case Interrupted => return GaugeAbandoned, n;
        case NoContainer =>
          if t.now > deadline { return MarkUnhealthy, n; }
        case InspectFailed(_) =>
          if t.now > deadline { return MarkUnhealthy, n; }
        case NoHealthcheck(running) =>
          if running { return MarkHealthy, n; }
          if t.now > deadline { return MarkUnhealthy, n; }
        case Health(status, _) =>
          if status == "healthy" { return MarkHealthy, n; }
          if status == "unhealthy" { return MarkUnhealthy, n; }
          if t.now > deadline { return MarkUnhealthy, n; }
      }
      n := n + 1;
    }
    r := GaugePending;
  }

  /** On one trace both loops stop at the same tick with the same decision. */
  method LoopsAgree(ticks: seq<Tick>, start: int, grace: int)
    returns (deploy: Verdict, atDeploy: nat, gauge: GaugeVerdict, atGauge: nat)
    ensures atDeploy == atGauge
    ensures deploy.Success? <==> gauge.MarkHealthy?
    ensures deploy.RollBack? <==> gauge.MarkUnhealthy?
    ensures deploy.Pending? <==> gauge.GaugePending?
    ensures deploy.Pending? <==> atDeploy == |ticks|
  {
    deploy, atDeploy := VerifyAfterDeploy(ticks, start, grace);
    gauge, atGauge := VerifyHealthAfterCompose(ticks, start, grace);
  }

  /** Tick number k comes no earlier than 5k seconds after the start. */
  ghost predicate EveryFiveSeconds(ticks: seq<Tick>, start: int) {
    forall k :: 0 <= k < |ticks| ==> ticks[k].now >= start + 5 * (k + 1)
  }

  /** Whatever Docker reports, the loops decide within floor(grace/5) + 1 ticks. */
  lemma DecidesInTime(ticks: seq<Tick>, start: int, grace: nat)
    requires EveryFiveSeconds(ticks, start) && |ticks| > grace / 5
    ensures FirstDecision(ticks, start + grace) <= grace / 5
  {
    var last := ticks[grace / 5];
    assert last.now > start + grace;
  }

  /** The bound is reached: a container that keeps starting is given all of these ticks. */
  lemma StartingUsesWholeGrace(ticks: seq<Tick>, start: int, grace: nat)
    requires |ticks| > grace / 5
    requires forall k :: 0 <= k < |ticks| ==> ticks[k] == Tick(Health("starting", ""), start + 5 * (k + 1))
    ensures EveryFiveSeconds(ticks, start) && FirstDecision(ticks, start + grace) == grace / 5
  {
    forall k | 0 <= k < grace / 5 ensures !Decides(ticks[k], start + grace) {
      assert 5 * (k + 1) <= 5 * (grace / 5) <= grace;
    }
    DecidesInTime(ticks, start, grace);
  }
}
